# Streaming services, modelled and proved in Dafny

A model of the services that carry most of the state in a torrent streaming back end, with proofs of what
they keep. `dafny verify dfyconfig.toml` verifies all of it; each source component has its own module, and
the modules share `Options`, `Numbers`, `Collections`, `Bytes`, `Decimals` and `Texts`.

**The range-limited ZIP archiver** (`Bytes`, `Buffers`, `ZipFormat`, `ZipWindow`, `ZipWriter`,
`ZipChecksums`, `Crc32`, `ZipCrc`, `Utf8`, `ZipPlan`, `ZipService`, `ZipReader`, `ZipRoundTrip`,
`ZipLayout`, `ZipInput`, `ZipEndToEnd`). The service sends any byte window of an archive that never exists
as a whole. `ZipFormat.Archive` is that archive, written down once as a function of its members, after
PKWARE APPNOTE 6.3; a window is the inclusive byte range of section 14.1.2 of RFC 9110. The writer class
moves a virtual position over the records and clips each; its sink is proved to be the window of the
archive. The reader's loops are proved against functions of the bytes, and those against the archive:
opening it gives every member back, plain and zip64. Two modules say the same without any of these
functions, byte by byte: `ZipLayout` which signature, number or name stands where in an archive,
`ZipInput` what the reader makes of any bytes at all. `ZipEndToEnd` says what a user unpacks: each folder
under its path and a slash, each file under its relative name, with its size, time and content
(`PlannedEntry`).

- A windowed request computes directory checksums from the part of each content it fetched. A window is
  therefore exact, whatever the checksum function, if and only if it shows no checksum byte without the
  content it belongs to (`WindowExactIffCovered`); outside those fields it always is, also when two
  requests split the archive (`AdjacentWindows`). For CRC-32, a file of one byte and a window over the
  directory alone already get a wrong checksum (`DirectoryAlone`).
- The reader compares the directory size with 0xffff where the writer stores 0xffffffff. A directory of
  just that length whose last bytes look like a zip64 locator is misread (`MisleadingExample`). It makes
  room for as many entries as the end record tells before it reads one, and panics where that is too many
  (`HugeNumberPanics`).
- A file whose relative name ends in a slash gets the header of a directory, with size 0 and no writer for
  its content, yet its page is still fetched: when the window reaches over its place, the first byte of
  the page ends the request in a panic. An upstream that delivers what it declares, under names that fit
  their length fields, can therefore be sent on if and only if the window reaches over no such file of
  non-zero length (`SentUnlessReached`), and as a whole if and only if none declares a length, which is
  also when the predicted size is exact (`SentWholeIffExact`).

**The multipart upload** (`MultipartUpload`, `UploadProgress`). Uploads, the flusher, completions and an
abort are steps between lock sections, in any interleaving; the lock sections are methods of a class, each
proved to be a step of that protocol which keeps its invariant. The file is the in-order concatenation of
the parts, and the staged bytes are bounded. Parts above the completed list that the flusher had already
taken stay in the object; exactly then, if they are not empty, it is longer than the parts listed
(`ObjectOfCompletion`), as in the run of `UnlistedPartStays`. `UploadProgress` has what can happen from
any reachable state: as long as nothing fails, a waiting completion can get to its end whatever the
flusher is doing (`CompletionCanSucceed`), a copy that fails after any number of bytes refuses it
(`CopyCanFail`), and so can the very last steps (`EndCanFail`). A comment in the source says that the
completed list is put in order; the code keeps it as given, and so does the model.

**Shared transcode runs** (`RunKeys`, `SharedRuns`, `RunProtocol`). `SharedRuns` has whole calls of
sessions and manager on mutable objects: a mapped run counts its holders, a held run is mapped, and it is
the one of the session's directory and quantized position. A session that is started while it holds a run
loses a reference for good; the contracts keep track of that, so they hold for every history.
`RunProtocol` has the lock sections in any interleaving. A creator whose launch fails takes its run out of
the map even if others have joined it: that run is then used under a key that stands for another one, and
is never cleaned up (`TwoRunsUnderOneKey`, `FailedIsNeverReaped`); it can happen to every launch
(`EveryLaunchCanSplit`). Nothing else takes a used run out of the map (`UsedRunIsMapped`). A release that
marks a run idle after another session has taken a reference leaves its mark behind: without such marks a
run is reaped only after the grace period (`GraceKept`), and after any of them it can be reaped at once
(`StaleMarkSkipsGrace`).

**The lazy cache** (`LazyCache` in LazyMap.dfy, `LazyProtocol`, `LazyRaces`). The cleaning loop is proved
to be an exact least-recently-used eviction. The protocol bounds the number of items while calls overlap
and while items change under a cleaning that looks at them, and takes them, one by one; undisturbed, those
steps are that eviction. Between look and take a caller can start to compute an item that never was: a
cleaning that may take such items takes it all the same (`TakenWhileComputed`), and any other spares it
(`SparesTheUnfinished`). The function of one item is called by every caller that comes before the first
result (`ComputedByMany`), and an item that expires late takes a newer one of its key out of the map
without cancelling it (`LateExpiry`).

**The streaming proxy** (`TokenBucket`, `HybridThrottle` in HybridBucket.dfy, `ResumingReader`, `Films`,
`Manifest`, `Playlist`). The global token bucket grants no more than its capacity and what the rate
brings, in every run, if and only if the rate refills the capacity before the hash expires; under a clock
that goes back, what counts is how far it moved forward (`GrantsFollowClock`). The local tier keeps books
that balance. The resuming reader drops the end of the range when it reconnects, and takes a suffix range
to start at 0: what it hands out is one unbroken stream except after resuming a suffix shorter than the
source, and it is the part asked for, once resumed, only if that reached to the end. The manifest rewriter
works on lines; `Films` describes a playlist as its author means it, segments with durations and other
lines between them, and of every such playlist exactly the segments of positive duration that start within
the grace period, by the sum of the durations before them, get the other token (`FilmRewritten`). The
early exit is right if and only if no segment with the token starts within it after all (`EarlyExitIff`,
`EarlyExitOfFilm`); durations below zero make it wrong (`NegativeDurationsBreakIt`). It reads the offset
that the transcoder put in.

Outcomes of the network, of processes and of clocks are parameters: a page of the upstream answers whole,
in part or not at all; launching FFmpeg works or not; a read brings any number of bytes and any error.

## Model

| member | source | states |
|---|---|---|
| ZipWriter.Writer.GetRange | torrent-archiver/ziphttp/writer.go:392-408 | a record is skipped exactly if it has no byte in the window; otherwise the bounds are those of its clipped part, and a partial write is never empty |
| ZipWriter.Writer.WriteClipped | torrent-archiver/ziphttp/writer.go:440-453 | the sink grows by exactly the bytes of the piece whose archive positions lie in the window, and the position moves past the whole piece |
| ZipWriter.Writer.GetHeader | torrent-archiver/ziphttp/writer.go:511-546 | the local header record of section 4.3.7, refused exactly when name or extra field do not fit 16 bits |
| ZipWriter.Writer.WriteHeader | torrent-archiver/ziphttp/writer.go:494-509 | the clipped local header, or nothing written and no move when it is refused |
| ZipWriter.Writer.WriteFile | torrent-archiver/ziphttp/writer.go:465-493 | only the needed part of a content is fetched and passed on; fails exactly if the window asks for it and it does not arrive whole, or has a byte and no writer to take it, and then what was sent is a correct start |
| ZipWriter.Writer.GetDescriptor | torrent-archiver/ziphttp/writer.go:410-438 | the data descriptor of section 4.3.9 with checksum 0, in its 32-bit or 64-bit form |
| ZipWriter.Writer.Complete | torrent-archiver/ziphttp/writer.go:276-360 | the completion of a header: UTF-8 flag, versions, timestamp block, sizes or the zip64 escape, directory or descriptor flag |
| ZipWriter.Writer.CreateHeader | torrent-archiver/ziphttp/writer.go:254-390 | fails exactly on names too long, contents that do not arrive and pages with a byte for a directory; on success the writer holds one member more and its sink is still the clipped stream of its members; after a failure nothing sent is taken back |
| ZipWriter.Writer.DirectoryEntry | torrent-archiver/ziphttp/writer.go:82-135 | a central directory entry (4.3.12) with its zip64 block (4.5.3) exactly when size or offset need it |
| ZipWriter.Writer.GetEnding | torrent-archiver/ziphttp/writer.go:72-196 | the directory of all members at the current position, then the zip64 records when number, size or offset need them, then the end record |
| ZipWriter.Writer.Close | torrent-archiver/ziphttp/writer.go:200-222 | appends the clipped ending once; a second close fails and writes nothing |
| Buffers.WriteBuf.Put | torrent-archiver/ziphttp/writer.go:594-614 | the buffer holds the integers put so far, low byte first, and is untouched behind them |
| Buffers.ReadBuf.Take | torrent-archiver/ziphttp/reader.go:579-609 | the next integer of the slice, and the slice without it |
| ZipFormat.HeadersSnoc | torrent-archiver/ziphttp/writer.go:324-352 | a further member is listed with the length of everything before it as its offset |
| ZipFormat.PreparedSizes | torrent-archiver/ziphttp/writer.go:307-340 | after completion the 32-bit sizes are the true ones, or the escape value exactly in the zip64 case; directories have size 0 |
| ZipLayout.CompletedHeader | torrent-archiver/ziphttp/writer.go:276-360 | a completed header, field by field: version 20, or 45 from 2^32 - 1 bytes on; method 0; bit 3 for all but directories, bit 11 as the name needs it, every other bit as it was; the date, time and extra block of the stamp; directories of size 0 |
| ZipLayout.LocalHeaderBytes | torrent-archiver/ziphttp/writer.go:511-546 | at every member's offset the bytes 50 4b 03 04, then version, flags, method, time and date as the directory tells them for the same member, zeros for checksum and sizes, the name, and the extra field without its zip64 block |
| ZipLayout.DescriptorBytes | torrent-archiver/ziphttp/writer.go:410-438 | bit 3 at +6 of the local header is set exactly when 50 4b 07 08, a zero checksum and the two sizes follow the content, in 16 bytes or in 24; the next member, or the directory, starts right behind |
| ZipLayout.EntryBytes | torrent-archiver/ziphttp/writer.go:82-135 | where the entries before it end, 50 4b 01 02 and every field of an entry at its place, escapes where a zip64 block has the true sizes and offset, and that block at the end of the extra field |
| ZipLayout.EndBytes | torrent-archiver/ziphttp/writer.go:137-196 | behind the directory the zip64 end record and its locator, exactly from 65535 members or a size or place of 2^32 - 1 on, and the end record, number by number |
| ZipLayout.StampBytes | torrent-archiver/ziphttp/writer.go:307-322 | the timestamp block: 55 54, length 5, flag 1, and the Unix seconds, low byte first |
| Utf8.FlagNeededIff | torrent-archiver/ziphttp/writer.go:227-252 | the UTF-8 flag is asked for exactly for names that are the encoding of a text with a character other than the plain printable ones; a name that is no such encoding does without |
| ZipWindow.ClipAppend | torrent-archiver/ziphttp/writer.go:392-408 | clipping two adjoining pieces one after the other is clipping them joined |
| ZipWindow.EmitIsClip | torrent-archiver/ziphttp/writer.go:330-389 | clipped header, content and descriptor of every member, in order, are the window of all members joined |
| ZipWindow.EmittedIsWindow | torrent-archiver/ziphttp/writer.go:200-390 | the clipped members followed by the clipped ending are exactly the window of the full archive |
| ZipChecksums.WindowsDifferInChecksums | torrent-archiver/ziphttp/writer.go:372-381 | members made for two windows differ in directory checksums alone |
| ZipChecksums.ArchivesAgree | torrent-archiver/ziphttp/writer.go:372-381 | archives of the same contents agree at every position outside the 4-byte checksum fields, and inside those with equal checksums |
| ZipChecksums.WindowsAgree | torrent-archiver/ziphttp/writer.go:254-509 | what a request delivers equals the slice of the one true archive at every position that is not in the checksum field of an entry whose content the window cuts |
| ZipChecksums.ExactWhenCovered | torrent-archiver/ziphttp/writer.go:372-381 | a window that shows no checksum without its whole content is delivered exactly |
| ZipChecksums.InexactWhenUncovered | torrent-archiver/ziphttp/writer.go:372-381 | otherwise some checksum function makes it differ from the slice |
| ZipChecksums.WindowExactIffCovered | torrent-archiver/ziphttp/writer.go:254-509 | a window is the slice of the true archive for all checksum functions if and only if it shows no checksum byte without the content it belongs to |
| ZipChecksums.AlikeArchives | torrent-archiver/ziphttp/writer.go:72-196 | the length of an archive depends neither on checksums nor on content bytes |
| ZipCrc.ExactIffChecksumsRight | torrent-archiver/ziphttp/writer.go:372-381 | for one checksum function, CRC-32 among them: a window is the slice of the true archive if and only if every checksum byte it shows is that of the whole content |
| ZipCrc.DirectoryAlone | torrent-archiver/ziphttp/writer.go:372-381 | with CRC-32, a file of one zero byte and the window of its directory entry alone: the checksum field sent starts with 0x00, the true one with 0x8D |
| Crc32.CheckValue | torrent-archiver/ziphttp/writer.go:455-463 | the checksum of the digits 1 to 9 is 0xCBF43926, the check value of CRC-32 |
| ZipPlan.JoinedParts | torrent-archiver/services/zip.go:47-55 | the joined first parts of a split path are its prefixes before a slash; all parts joined give the path back |
| ZipPlan.PrefixesAre | torrent-archiver/services/zip.go:47-55 | exactly the proper prefixes that end before a slash |
| ZipPlan.FoldersAreThePrefixes | torrent-archiver/services/zip.go:47-75 | the folder entries are exactly the proper path prefixes of the relative file names, each once, every parent before its child |
| ZipPlan.FoldersBeforeFiles | torrent-archiver/services/zip.go:90-109 | files keep their order, and every folder on a path is entered before the first file in it |
| ZipPlan.FolderStamps | torrent-archiver/services/zip.go:62-67 | a folder entry has the modification time of the first file entry behind it |
| ZipService.FolderWriter.Write | torrent-archiver/services/zip.go:47-75 | enters the folders not written yet, in order; on failure everything before the failing entry was sent; what an entry's header holds is in ZipEndToEnd.PlannedEntry |
| ZipService.GenerateFileList | torrent-archiver/services/zip.go:144-156 | the files whose path starts with the requested one, all of them, in order |
| ZipService.WriteFile | torrent-archiver/services/zip.go:90-109 | folders first, then the file; success makes the writer hold the planned headers of one file more, whatever the file is named |
| ZipService.Write | torrent-archiver/services/zip.go:158-178 | for pages of the declared sizes: succeeds exactly if no header fails, and then the bytes sent are the window of the archive of the planned entries, whose names, sizes and contents PlannedEntry tells; after a failure they start with the correct bytes up to the failing entry |
| ZipService.WritableIff | torrent-archiver/ziphttp/writer.go:254-390 | no header fails if and only if none does at the position where its member would stand |
| ZipService.SentUnlessReached | torrent-archiver/ziphttp/writer.go:327-376 | with an upstream that delivers every page in its declared length, a window can be sent if and only if no name is longer than 65535 bytes and it does not reach over the place of a file that is named like a directory and declares a length |
| ZipService.SentWholeIffExact | torrent-archiver/ziphttp/writer.go:327-376 | the whole archive can be sent if and only if names fit and there is no such file; the reported size is exact if and only if there is none |
| ZipService.SlashFileExample | torrent-archiver/ziphttp/writer.go:327-376 | a file named a/ with a page of 5 bytes: its whole archive cannot be sent, the first byte of it can |
| ZipService.Size | torrent-archiver/services/zip.go:111-143 | the length of the full archive, plus what files named like directories declare |
| ZipService.SizeIsExact | torrent-archiver/services/zip.go:111-143 | the reported size is exact if and only if no file whose relative name ends in a slash declares a length |
| ZipService.PredictedLength | torrent-archiver/services/zip.go:111-143 | the archive written without contents predicts the length of the archive every window is cut from, for pages of the declared sizes |
| ZipService.DeclaredLength | torrent-archiver/services/web.go:149-170 | the Content-Length declared for a range is the number of bytes in its window if and only if the range ends inside the archive, which is below the reported size when that is exact; the range is not cut to the size |
| ZipReader.FindSignatureInBlock | torrent-archiver/ziphttp/reader.go:565-577 | the last place in a block where an end record with a fitting comment length starts |
| ZipReader.FindEnd | torrent-archiver/ziphttp/reader.go:459-479 | the end record is looked for in the last 1 KiB, then in the last 65 KiB |
| ZipReader.FindDirectory64End | torrent-archiver/ziphttp/reader.go:518-539 | the place a zip64 locator names, if there is a locator before the end record |
| ZipReader.ReadDirectory64End | torrent-archiver/ziphttp/reader.go:543-563 | number, size and offset from the zip64 end record, or a format error |
| ZipReader.ReadDirectoryEnd | torrent-archiver/ziphttp/reader.go:459-513 | the end of the directory, with the zip64 values when the 32-bit ones call for them |
| ZipReader.ReadZip64 | torrent-archiver/ziphttp/reader.go:319-344 | the 64-bit values the fixed part left open, in order, refused when the block is too short |
| ZipReader.ReadExtras | torrent-archiver/ziphttp/reader.go:309-414 | all extra blocks, up to the first that does not fit |
| ZipReader.ReadDirectoryHeader | torrent-archiver/ziphttp/reader.go:249-417 | one directory entry, or the error that ends the directory |
| ZipReader.Init | torrent-archiver/ziphttp/reader.go:81-116 | a panic when the end record tells of more entries than there is room for; otherwise entries until one fails, then their number is compared modulo 65536 |
| ZipRoundTrip.HugeNumberPanics | torrent-archiver/ziphttp/reader.go:86-87 | however many entries there is room for, from 65534 on, some 98 bytes that hold none make opening panic |
| ZipRoundTrip.PlainNeverPanics | torrent-archiver/ziphttp/reader.go:86-87 | where there is room for 65535 entries, opening panics only through a zip64 locator |
| ZipReader.FindBodyOffset | torrent-archiver/ziphttp/reader.go:231-244 | the length of the local header found at the entry, or a format error |
| ZipInput.EndFound | torrent-archiver/ziphttp/reader.go:459-479 | in any bytes: the end record is the last place of 50 4b 05 06 with a comment that fits, if that is in the last 66560 bytes; otherwise a format error |
| ZipInput.EndRead | torrent-archiver/ziphttp/reader.go:481-563 | what is taken from it, number by number, or from the zip64 end record if one of three values calls for it and a locator stands before; and each error |
| ZipInput.NoEntry | torrent-archiver/ziphttp/reader.go:249-256 | in any bytes: where no entry can be read, and with which error |
| ZipInput.EntryRead | torrent-archiver/ziphttp/reader.go:249-417 | in any bytes: the fields of an entry at their places, size, compressed size and offset from the first zip64 block of the extra field where all bits are set; the block must hold what is asked of it, and without one only the size may be left open |
| ZipInput.OpenRead | torrent-archiver/ziphttp/reader.go:81-116 | in any bytes: opening gives the entries that stand one behind the other from the start of the directory, if what ends them is no entry or half of one and their number is right modulo 65536; otherwise that error, or the panic |
| ZipInput.ContentRead | torrent-archiver/ziphttp/reader.go:146-152 | where DataOffset finds the content: behind the local header at the offset, by the lengths it tells, or each error |
| ZipRoundTrip.EntryAsRead | torrent-archiver/ziphttp/reader.go:249-417 | reading an entry where one was written gives its name, sizes and offset back, zip64 or not, and stops right behind it |
| ZipRoundTrip.EntriesAsRead | torrent-archiver/ziphttp/reader.go:81-116 | reading a written directory gives exactly its entries, in order |
| ZipRoundTrip.EndAsRead | torrent-archiver/ziphttp/reader.go:459-513 | the end records tell the written number, size and offset, zip64 or not, unless the directory is misleading |
| ZipRoundTrip.WideRecordsFound | torrent-archiver/ziphttp/reader.go:518-563 | the zip64 records of an archive are found through their locator and tell the 64-bit values |
| ZipRoundTrip.ReadsBack | torrent-archiver/ziphttp/reader.go:81-116 | opening a full archive gives one entry per member, in order, with every field as written, unless its directory is misleading or there is no room for so many entries |
| ZipRoundTrip.ReadsBackIffNotMisleading | torrent-archiver/ziphttp/reader.go:499-508 | where no stray zip64 end record lies at the place misleading bytes point to, opening gives the members back if and only if there is room for them and the directory is not 65535 bytes long, in an archive without zip64 records, and ends in bytes that look like a zip64 locator |
| ZipRoundTrip.StrayReadsBack | torrent-archiver/ziphttp/reader.go:499-508 | a misleading archive whose stray record names the true place of the directory is opened if and only if the record tells the true number of entries modulo 65536 and there is room for the number it tells; then its members come back |
| ZipRoundTrip.ContentFound | torrent-archiver/ziphttp/reader.go:146-152 | what DataOffset computes for an entry is where its content is; header, content and descriptor end where the next member, or the directory, begins |
| ZipEndToEnd.PlannedIsReadable | torrent-archiver/services/zip.go:158-178 | every archive the service writes meets what the reader needs |
| ZipEndToEnd.FilesReadBack | torrent-archiver/services/zip.go:158-178 | reading the archive of any window back gives, if there is room for so many entries, one per planned folder and file, in order: a folder under its path and a slash, of size 0, without the descriptor flag; a file under the rest of its path after the root and a slash, or its whole path without that prefix, with its declared size, or 0 when that name ends in a slash; versions, flags, times and extra field as given |
| ZipEndToEnd.PlannedEntry | torrent-archiver/services/zip.go:47-109 | of the archive that any window is cut from: the same of every entry, and where it says its member is, the local header with the same values, then for a file the upstream's page and a descriptor, for a folder or a name that ends in a slash nothing |
| ZipEndToEnd.PlannedChecksum | torrent-archiver/ziphttp/writer.go:372-381 | the checksum of a file is that of the bytes of its content that the window has, of all of them for the whole archive |
| ZipEndToEnd.AdjacentWindows | torrent-archiver/ziphttp/writer.go:254-509 | the answers to two requests for adjacent windows have, joined, the length of the slice for both, and its byte at every position that is not in the checksum field of an entry whose content the window showing it cuts |
| ZipEndToEnd.AdjacentCoveredWindows | torrent-archiver/ziphttp/writer.go:254-509 | when both windows cover the checksums they show, the answers join to the slice for both |
| ZipEndToEnd.MisleadingExample | torrent-archiver/ziphttp/reader.go:499-508 | a member with a long name whose archive the writer makes and the reader refuses, whatever room it has |
| MultipartUpload.ActiveUpload.TryAdmit | s3-gateway/main.go:498-531 | turned away exactly after a flush error or an abort, held back exactly while totalBytes - totalFlushed is above the limit, and let in exactly when the protocol may admit it |
| MultipartUpload.ActiveUpload.RecordPart | s3-gateway/main.go:548-552 | the part is received and its size counted, nothing else changes; that is the protocol's step, and keeps the invariant of the whole upload |
| MultipartUpload.ActiveUpload.NextAction | s3-gateway/main.go:185-220 | leaves exactly after an abort, a flush error, or when completed with every expected part below the next; goes for the next part exactly if it was received; as the protocol's step does |
| MultipartUpload.ActiveUpload.AccountPart | s3-gateway/main.go:262-272 | size and number of a copied part are counted as flushed, nothing else changes; that is the protocol's step, and keeps the invariant |
| MultipartUpload.ActiveUpload.FinishFlush | s3-gateway/main.go:229-238 | the next part, or the error kept, nothing else changes; that is the protocol's step, and keeps the invariant |
| MultipartUpload.ActiveUpload.BeginCompletion | s3-gateway/main.go:585-599 | refused exactly after a flush error, when nothing changes; otherwise the list is kept as given and the upload counts as completed; that is the protocol's step, and keeps the invariant |
| MultipartUpload.AlwaysInv | s3-gateway/main.go:182-275 | in every interleaving: parts below the next one were received, staged files hold their parts, file and buffer are the flushed parts in order, completions go on only after the flusher has left without error |
| MultipartUpload.KeepsInv | s3-gateway/main.go:182-275 | every step that is possible keeps the invariant |
| MultipartUpload.FlushBoundary | s3-gateway/main.go:182-240 | between two parts, file bytes and write buffer are parts 1, ..., nextPart - 1 joined |
| MultipartUpload.ObjectOfCompletion | s3-gateway/main.go:561-672 | after a successful completion of parts 1, ..., n the file is their concatenation followed by the parts above n already flushed; it is exactly the concatenation if and only if those are empty |
| MultipartUpload.UnlistedPartStays | s3-gateway/main.go:561-672 | for any two contents a run in which parts 1 and 2 are flushed, part 1 alone is completed, and the object is both |
| MultipartUpload.CompletedObject | s3-gateway/main.go:498-672 | when no part above n is uploaded the object is part 1 ++ ... ++ part n, in whatever order parts arrived |
| MultipartUpload.StagedBytes | s3-gateway/main.go:242-275 | totalBytes - totalFlushed is the size of the parts received and not yet flushed |
| MultipartUpload.StagingBound | s3-gateway/main.go:511-552 | with at most w uploads of at most p bytes in progress, that never exceeds the limit plus w * p |
| UploadProgress.CompletionCanSucceed | s3-gateway/main.go:182-275 | from every reachable state in which nothing failed and the file is open, a waiting completion whose parts were all received can succeed by steps of the flusher and its own alone, whatever the flusher is doing; the file then begins with the parts listed |
| UploadProgress.CopyCanFail | s3-gateway/main.go:229-238 | a copy that fails after any number of bytes refuses the completion, and leaves in file and buffer the parts before and those bytes |
| UploadProgress.OpenCanFail | s3-gateway/main.go:243-246 | a staging file that does not open refuses the completion, and leaves the parts before |
| UploadProgress.EndCanFail | s3-gateway/main.go:644-655 | with all parts out a completion can be refused still, when the buffer does not drain or the file does not close |
| UploadProgress.AnotherCompletion | s3-gateway/main.go:561-599 | while the upload is listed another completion can begin beside those in progress, and its list takes the place of theirs; after a flush error it is refused |
| UploadProgress.StagingFiles | s3-gateway/main.go:242-275 | while the file is open there is a staging file for exactly the parts received and not flushed and those staged by an upload in progress, with the content of the part |
| UploadProgress.EndCleansUp | s3-gateway/main.go:658-694 | an abort, and a completion that succeeds, delete the staging files of all parts received by then, for good |
| RunKeys.Quantize | content-transcoder/services/session.go:29-36 | the multiple of 30 seconds at or below the position, 0 before the beginning |
| RunKeys.KeysTellApart | content-transcoder/services/run_manager.go:40-42 | two grid positions share a key exactly when directory and position are the same, whatever the directory names contain |
| RunKeys.KeyOnGrid | content-transcoder/services/run_manager.go:40-42 | the key is the directory, :seek: and the position, a multiple of 30 seconds with three decimals |
| SharedRuns.TranscodeRun.Start | content-transcoder/services/transcode_run.go:90-176 | a run that counts as running stays so; otherwise the outcome of the launch decides |
| SharedRuns.TranscodeRun.IsRunning | content-transcoder/services/transcode_run.go:236-248 | a process that has exited no longer counts as running |
| SharedRuns.RunManager.Acquire | content-transcoder/services/run_manager.go:47-88 | the run of the key, running, with one reference more, or a new one with one; on failure every count and mapping is as before |
| SharedRuns.RunManager.Release | content-transcoder/services/run_manager.go:93-107 | one reference less; the last one starts the grace period, of the mapped run only; a mapped run has an idle time exactly while it has no references |
| SharedRuns.RunManager.CleanupIdleRuns | content-transcoder/services/run_manager.go:147-162 | removes exactly the runs without references that are idle for more than ten seconds, stops those, and takes none that a session holds |
| SharedRuns.Session.constructor | content-transcoder/services/session.go:91-106 | a new session holds nothing and leaves every count right |
| SharedRuns.Session.Start | content-transcoder/services/session.go:109-119 | every mapped run counts its holders; only a start on a session that already holds a run loses a reference for good |
| SharedRuns.Session.Seek | content-transcoder/services/session.go:140-169 | moves one reference from the old run to the new; a failed seek leaves run, position and all counts as they were |
| SharedRuns.Session.Stop | content-transcoder/services/session.go:172-176 | gives exactly its own reference back |
| SharedRuns.Session.Close | content-transcoder/services/session.go:179-196 | closes for good, giving the reference back once |
| SharedRuns.Session.EnsureRunning | content-transcoder/services/session.go:238-254 | leaves a running run alone; otherwise takes the run of the session's directory and position, holding none after a failure |
| SharedRuns.Session.RestartForSegment | content-transcoder/services/session.go:258-280 | the same at the position kept, whatever the segment: a running run is left alone, another is replaced by the one of the position, none is held after a failure |
| SharedRuns.SamePositionSharesRun | content-transcoder/services/run_manager.go:16-18 | sessions hold one run if and only if they have the same directory and position |
| SharedRuns.Session.AcquireRunLocked | content-transcoder/services/session.go:122-129 | on failure nothing is taken and nothing is lost |
| SharedRuns.Session.ReleaseRunLocked | content-transcoder/services/session.go:132-137 | the held run loses one reference and the session its run |
| RunProtocol.AlwaysInv | content-transcoder/services/run_manager.go:47-162 | in every interleaving of lock sections a run counts its users, and one more for ever if its creator failed |
| RunProtocol.ReaperSparesUsedRuns | content-transcoder/services/run_manager.go:147-162 | whatever the reaper took has no reference, no holder and nobody acquiring it, then or later |
| RunProtocol.ReapedNeverRises | content-transcoder/services/run_manager.go:147-162 | a reaped run's reference count stays the same in every continuation |
| RunProtocol.CreatorRemovesItsOwn | content-transcoder/services/run_manager.go:77-82 | a creator that fails takes its own run out of the map and no other |
| RunProtocol.UsedRunIsMapped | content-transcoder/services/run_manager.go:47-88 | a run in use is in the map under its key if and only if its creator has not failed |
| RunProtocol.OneRunPerKey | content-transcoder/services/run_manager.go:47-88 | clients of one key share one run unless a creator failed under one of them |
| RunProtocol.FailedIsNeverReaped | content-transcoder/services/run_manager.go:77-82 | a run whose creator failed keeps a reference nobody gives back and is never cleaned up |
| RunProtocol.GraceKept | content-transcoder/services/run_manager.go:93-162 | if no release marks a run idle that has got references again, a run can only be reaped more than 10 seconds after its last reference went |
| RunProtocol.StaleMarkSkipsGrace | content-transcoder/services/run_manager.go:93-162 | from every reachable state in which such a mark can happen there is a continuation that can reap the run at the moment its last reference goes |
| RunProtocol.TwoRunsUnderOneKey | content-transcoder/services/run_manager.go:47-88 | wherever a creator can fail while another client waits for its run or holds it, that client goes on to hold it and the next one can get a second run under the same key |
| RunProtocol.EveryLaunchCanSplit | content-transcoder/services/run_manager.go:47-88 | from every reachable state in which a run is being launched for the first time, two clients can come to hold different runs of its key |
| RunProtocol.GraceSkipped | content-transcoder/services/run_manager.go:93-107 | an interleaving in which a run can be reaped at the moment its last holder lets go |
| LazyCache.LazyMap.Clean | lazymap/lazymap.go:197-239 | above the limit exactly min(quota, evictable) items go, none of them running or barred, each used no later than every evictable one that stays; what stays is untouched |
| LazyCache.EvictsExactly | lazymap/lazymap.go:197-239 | what that eviction is, without its names: nothing while the items but one are fewer than threshold * capacity; else items that are not running, and computed unless others may go, fewer than ratio * capacity but for one, and if one of those stays, at least ratio * capacity and none used later than it |
| LazyCache.PrefixEvicts | lazymap/lazymap.go:222-237 | taking evictable items in access order up to the quota is such an eviction |
| LazyCache.SortByAccess | lazymap/lazymap.go:213-221 | the same items, ordered by last access |
| LazyCache.Item.Get | lazymap/lazymap.go:149-184 | a computed item answers from its store, a cancelled one with the eviction error, any other with its function |
| LazyCache.LazyMap.Drop | lazymap/lazymap.go:320-327 | removes and cancels the item of the key alone |
| LazyCache.LazyMap.Touch | lazymap/lazymap.go:269-278 | refreshes the item of the key alone |
| LazyCache.LazyMap.Get | lazymap/lazymap.go:280-318 | a stored outcome, or the computed one kept unless it failed; calls one after the other leave, but for one, fewer items than threshold * capacity |
| LazyProtocol.SizeBound | lazymap/lazymap.go:197-318 | with any calls overlapping, and in the middle of a cleaning that looks at items and takes them in steps of their own: items, and those a cleaning took, are fewer than threshold * capacity + 1 and one for each creating Get in progress |
| LazyProtocol.QuietBound | lazymap/lazymap.go:197-239 | with no creating Get in progress, fewer than threshold * capacity + 1 items |
| LazyProtocol.SparesTheUnfinished | lazymap/lazymap.go:224-233 | while a cleaning goes on it alone takes items, and each was idle, and computed unless the cleaning may take others, when it looked at it; if it was computed then, nobody computes it for the first time when it is taken |
| LazyProtocol.TakenWhileComputed | lazymap/lazymap.go:149-233 | from every reachable state in which a cleaning has decided on an item never computed, the item's creator can be inside its function when the cleaning takes it |
| LazyProtocol.UndisturbedCleaning | lazymap/lazymap.go:197-239 | a cleaning with no other step between its own is, look by look and take by take, the exact least-recently-used eviction |
| LazyProtocol.OneItemPerKey | lazymap/lazymap.go:280-300 | two items in the map never share a key |
| LazyProtocol.GoneForGood | lazymap/lazymap.go:126-184 | an item that was dropped, expired or taken by a cleaning never comes back into the map, and whoever starts to compute it from then on does not call its function |
| LazyRaces.LastAccess | lazymap/lazymap.go:117-151 | the time a cleaning goes by is that of the last event that made, computed or touched the item |
| LazyRaces.ComputedByMany | lazymap/lazymap.go:149-175 | while the creator of an item is inside its function, every other caller that comes calls it too |
| LazyRaces.SettledOnce | lazymap/lazymap.go:177-182 | once one of them returned nobody starts to compute the item |
| LazyRaces.TakesTheKey | lazymap/lazymap.go:186-195 | a drop or expiry takes whatever the map has under the key, and cancels its own item alone |
| LazyRaces.LateExpiry | lazymap/lazymap.go:186-195 | a run in which the late expiry of an item takes a newer one of its key out of the map, not cancelled |
| TokenBucket.RedisHash.Run | torrent-http-proxy/services/hybrid_bucket.go:31-63 | the script: tokens left + grant are the capacity for an absent hash, min(capacity, tokens + rate * elapsed) under a clock that moved forward, and the tokens found otherwise; less than asked is granted only if none is left; the hash has the time of the call |
| TokenBucket.RedisHash.Accrued | torrent-http-proxy/services/hybrid_bucket.go:43-48 | the tokens to grant from: the capacity for an absent hash, min(capacity, tokens + rate * elapsed) under a clock that moved forward, the tokens found otherwise |
| TokenBucket.RedisHash.Pay | torrent-http-proxy/services/hybrid_bucket.go:50-60 | grants the smaller of what is asked and what is there, and keeps the rest and the time |
| TokenBucket.StepKeepsBalance | torrent-http-proxy/services/hybrid_bucket.go:43-58 | a request is granted no more than it asks for and no less than nothing, and keeps the balance in range, whatever the clock does |
| TokenBucket.BalanceStaysInRange | torrent-http-proxy/services/hybrid_bucket.go:43-60 | 0 <= tokens <= cap in every run, whatever the clock does |
| TokenBucket.ExpiryIsInvisible | torrent-http-proxy/services/hybrid_bucket.go:39-61 | when the rate refills the capacity in 300 seconds an expiry changes nothing |
| TokenBucket.GrantsFollowClock | torrent-http-proxy/services/hybrid_bucket.go:31-63 | under any clock, total grants are at most the balance found + rate * the time the clock moved forward, backward moves not subtracted |
| TokenBucket.GrantsBounded | torrent-http-proxy/services/hybrid_bucket.go:31-63 | total grants of any run whose clock does not go back are at most cap + rate * its time, across any number of expiries |
| TokenBucket.IntervalBounded | torrent-http-proxy/services/hybrid_bucket.go:31-63 | the same for every interval within a run |
| TokenBucket.BoundedIffRefillsInTime | torrent-http-proxy/services/hybrid_bucket.go:61-61 | the bound holds in every run if and only if 300 * rate >= cap |
| TokenBucket.PoolRefillsInTime | torrent-http-proxy/services/hybrid_bucket.go:226-245 | the pool's buckets meet that condition except for rates of 1 to 7 bytes |
| TokenBucket.ClockGoingBack | torrent-http-proxy/services/hybrid_bucket.go:43-48 | a run under a clock that goes back gets more than cap + rate * its time, and exactly what the forward moves allow |
| HybridThrottle.HybridBucket.TakeLocal | torrent-http-proxy/services/hybrid_bucket.go:100-127 | takes what is there, all of it if that is less than asked for; local accrual only while Redis is away; the books still balance |
| HybridThrottle.HybridBucket.Accrue | torrent-http-proxy/services/hybrid_bucket.go:104-115 | min(capacity, local + rate * elapsed) after a clock that moved forward, nothing new otherwise |
| HybridThrottle.HybridBucket.RefillFromRedis | torrent-http-proxy/services/hybrid_bucket.go:162-190 | one call of the script with whole numbers; without an answer nothing is granted and Redis is taken out of use, the hash having paid or not |
| HybridThrottle.HybridBucket.Settle | torrent-http-proxy/services/hybrid_bucket.go:136-147 | a grant pays the call first and leaves the surplus for later ones |
| HybridThrottle.HybridBucket.Pause | torrent-http-proxy/services/hybrid_bucket.go:150-156 | the sleep is what the rate needs for the rest; at rate 0 the rest goes through unpaid |
| HybridThrottle.HybridBucket.Wait | torrent-http-proxy/services/hybrid_bucket.go:94-157 | bytes begun - owed + local = granted + accrued + rate * slept before and after every call, and a returned call owes nothing; balance, sleep and hash are those of a call with Redis up, losing the answer, unreached or away |
| HybridThrottle.Conserved | torrent-http-proxy/services/hybrid_bucket.go:94-157 | over any series of calls, bytes admitted + local balance = tokens granted + rate * time slept |
| HybridThrottle.SerialCallerBounded | torrent-http-proxy/services/hybrid_bucket.go:94-157 | one serial caller gets at most capacity + 2 * rate * T bytes in T seconds |
| ResumingReader.ParsesBack | torrent-http-proxy/services/retry_transport.go:267-279 | ranges with a first position are read back as written |
| ResumingReader.OddRanges | torrent-http-proxy/services/retry_transport.go:267-279 | without a hyphen, or without a number before it, the start is 0; a number too large counts as 2^63 - 1 |
| ResumingReader.StartIsKnown | torrent-http-proxy/services/retry_transport.go:74-84 | the start taken from the header is the start of the part served if and only if the range is no suffix shorter than the source, which is taken to start at 0 |
| ResumingReader.Download.ResumesThere | torrent-http-proxy/services/retry_transport.go:83-138 | a reader with n bytes that asks for the source from the start taken + n on gets the rest of the download |
| ResumingReader.Download.Right | torrent-http-proxy/services/retry_transport.go:83-138 | the complete download is right, after a resumption, if and only if the start taken is the start served |
| ResumingReader.RetryingReadCloser.Read | torrent-http-proxy/services/retry_transport.go:168-227 | what was returned is the source from the start served, without gap or repeat, unless a resumption counted from another start; at the end of a resumed download it is right if and only if the start taken is the one served, and the part asked for if and only if that also reaches to the end. With an attempt left and no bytes read, a stream that ends early, a reset, a broken pipe, a refused connection, another network error and a message with one of three texts use one attempt; the end at its place, a cancelled or expired context, a closed body, any other message, and every other read use none |
| ResumingReader.Body.Read | torrent-http-proxy/services/retry_transport.go:176-179 | the next bytes of an honest stream, whose end is reported only there |
| ResumingReader.RetryingReadCloser.ReadBody | torrent-http-proxy/services/retry_transport.go:176-179 | the bytes counted are the bytes returned |
| ResumingReader.RetryingReadCloser.Reconnect | torrent-http-proxy/services/retry_transport.go:83-138 | one call of the reconnect function; a new body serves the source from the offset reached |
| ResumingReader.RetryingReadCloser.Resume | torrent-http-proxy/services/retry_transport.go:202-217 | a broken body is closed and replaced by one that goes on at the offset reached, or kept |
| ResumingReader.RetryingReadCloser.Close | torrent-http-proxy/services/retry_transport.go:229-237 | closes for good and keeps what was delivered |
| ResumingReader.RoundTrip | torrent-http-proxy/services/retry_transport.go:60-152 | the wrapped response has the part that the range asks for, position by position, and the start taken from the header, which differs from the true one exactly for a suffix shorter than the source |
| Texts.LinesJoin | torrent-http-proxy/services/manifest_rewriter.go:121-122 | no byte is lost between the lines |
| Manifest.StripSessionOffsetLine | torrent-http-proxy/services/manifest_rewriter.go:79-88 | the playlist without the lines of the offset tag |
| Manifest.Walk | torrent-http-proxy/services/manifest_rewriter.go:115-161 | every line as it was, without offset lines; of a playlist of segments with durations d_0, d_1, ..., whatever lines between them, the token is swapped in exactly the segments k with d_k > 0 and offset + d_0 + ... + d_(k-1) before the end of the grace period |
| Manifest.RewriteManifest | torrent-http-proxy/services/manifest_rewriter.go:103-162 | unchanged without a rule or primary token; of a playlist of segments, the same segments are swapped if it starts within the grace period, and none otherwise; with non-negative durations the result is that of the full walk, early exit or not |
| Manifest.FilmRewritten | torrent-http-proxy/services/manifest_rewriter.go:115-161 | what walk and early exit make of a playlist of segments, text for text: the duration of a segment is the last one that can be read before its address, and the first token of an address is the one swapped |
| Manifest.OffsetRead | torrent-http-proxy/services/manifest_rewriter.go:59-74 | the offset is 0 without its tag, and otherwise the number the first tag tells up to the line end, 0 if that is none |
| Manifest.QualifyingIsAPrefix | torrent-http-proxy/services/manifest_rewriter.go:152-157 | with non-negative durations the swapped segments come before all others of positive duration |
| Manifest.EarlyExitIsFullWalk | torrent-http-proxy/services/manifest_rewriter.go:109-113 | with non-negative durations stopping early gives the same bytes as the full walk |
| Manifest.EarlyExitIff | torrent-http-proxy/services/manifest_rewriter.go:109-157 | for any lines and durations, stopping early gives the same bytes as the full walk if and only if no positive-duration segment that carries the primary token starts before the end of the grace period |
| Manifest.EarlyExitOfFilm | torrent-http-proxy/services/manifest_rewriter.go:109-157 | of a playlist of segments: if and only if offset + d_0 + ... + d_(k-1) reaches the end of the grace period for every segment k that carries the token with d_k > 0 |
| Manifest.SameLinesDropped | torrent-http-proxy/services/manifest_rewriter.go:79-131 | both loops drop the same lines, however they trim |
| Manifest.NegativeDurationsBreakIt | torrent-http-proxy/services/manifest_rewriter.go:109-157 | a playlist with an offset tag past the grace period and a negative duration: the full walk swaps a token in its last segment, the early exit does not |
| Manifest.SwapsExactly | torrent-http-proxy/services/manifest_rewriter.go:167-176 | a line stays the same exactly when it has no primary token or the tokens are equal |
| Playlist.OffsetReadsBack | content-transcoder/services/session.go:305-329 | the proxy reads the session's position back from the injected tag if and only if it is 0 or the playlist has its first line |
| Playlist.HandedOut | content-transcoder/services/session.go:290-332 | the playlist handed out, text for text: the position in whole seconds and the order to start at the beginning behind the first line, the growing type behind the number of the first segment, and neither the permission to cache nor the end of the list |
| Playlist.ReadsTheTag | torrent-http-proxy/services/manifest_rewriter.go:59-74 | the first offset tag of a text that has none before it is the one read |

## Left out

- ZipWriter.Writer.CreateHeader: takes the header as a value, so the refusal of the same header object twice in a row is not modelled, and neither is the zip64 block that closing appends to a header object.
- ZipWriter.Writer.WriteFile: assumes that a page is as long as its file is declared to be and that an answer to a range request is that range; write errors of the sink and its buffering are left out, and the panic of a directory's page is a failed call.
- ZipWriter.Writer.Complete: date, time and attribute values come in as numbers; conversions from clock times and file modes are left out.
- ZipRoundTrip.ReadsBack: for archives shorter than 2^63 bytes, names and extra fields that fit their length fields, and an empty comment; modification times, the UTF-8 verdict and disk numbers are not read back.
- ZipRoundTrip.StrayReadsBack: for stray records that name the true place of the directory; what the reader finds at any other place they name is left open.
- ZipService.Write: the file list comes in as a parameter; failures of the store that holds it are left out.
- ZipService.DeclaredLength: for ranges that do not end before they begin.
- ZipReader.Init: the number of entries the run time has room for is a parameter.
- ZipInput.EntryRead: the verdict on the character set of name and comment is not read back.
- ZipReader.ReadExtras: blocks of the NTFS, Unix and timestamp kinds are skipped, as they only set the modification time.
- MultipartUpload.CompletedObject: each part number is uploaded once and the completed list is 1, ..., n; re-uploads, gaps, the parallel mode and whether a held-back upload ever gets in are left out.
- MultipartUpload.StagingBound: for a limit that is not negative.
- UploadProgress.CompletionCanSucceed: says that a completion can go on, not that the scheduler lets it; the object's removal by an abort is left out.
- MultipartUpload.AlwaysInv: an abort is one step, although the source sets its flag outside the upload's mutex.
- SharedRuns.Session.Start: file system, FFmpeg parameters and signals are outcomes; closing the whole manager is left out.
- SharedRuns.RunManager.Release: for callers that have a reference to give back.
- SharedRuns.RunManager.CleanupIdleRuns: removal of the output directory is left out.
- RunProtocol.AlwaysInv: the reaper takes one key per step although the source holds the lock over the whole loop, which allows more interleavings than the source.
- RunKeys.KeysTellApart: positions are reals on the grid; the rounding of floating point numbers is left out, here and in the bucket.
- LazyCache.LazyMap.Get: expiry timers and the bound on concurrent functions are left out; the protocol lets any item disappear at any time instead.
- LazyCache.LazyMap.Clean: for a positive ratio; with none the source stops at the first item it cannot evict.
- LazyProtocol.SparesTheUnfinished: is about the first computation of an item; of several callers computing one item at a time, the first to finish clears its running flag. Cancelling an item and deleting it are one step, as nothing else reads the map between them.
- LazyRaces.ComputedByMany: which of the results is kept is left out, as the protocol has no values.
- LazyProtocol.TakenWhileComputed: the bound on concurrent functions, under which the creator may have to wait for its turn, is left out.
- TokenBucket.GrantsFollowClock: the hash expires by the callers' clock, no earlier than 300 seconds after its last use; where the clock of Redis runs ahead of it, an expiry can come earlier.
- HybridThrottle.SerialCallerBounded: while Redis answers every call; probing for its return is left out.
- HybridThrottle.HybridBucket.Pause: the sleep is not cut to whole nanoseconds.
- ResumingReader.RetryingReadCloser.Read: errors are kinds, not chains of wrapped errors; finding another upstream and the headers of its request are left out.
- ResumingReader.RoundTrip: for upstreams that honour ranges and ranges that the source can satisfy; several ranges in one header are left out.
- Manifest.FilmRewritten: for playlists whose lines all end the same way, the last one too; of any other text NewLines says what the walk makes of it, line by line.
- Manifest.RewriteManifest: number parsing is a parameter, without infinities and values that are no numbers; the claims come in as the first grace rule or none.
- Playlist.HandedOut: for playlists with a first line and a first segment number 0, and no type, start or offset of their own; for others there is OffsetReadsBack alone.
- The session manager: its map of sessions and its inactivity sweep only decide which session calls are made, and the contracts hold for every order of calls.
- Opening a file of an archive, checksum verification and compression; URL building, authentication, metrics and logging.
