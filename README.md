# exchange-web peer core, in Dafny

exchange-web is a browser client for sharing files between devices. Peers
reach each other through a socket.io relay. Each peer keeps a reactive state:
- `listedFiles`, the catalog of files advertised on the relay;
- `downloads`, the files being fetched;
- `downloadFileError`, the last integrity failure.

A file is advertised with its content in base64 text, cut into pieces of
`CHUNK_SIZE` = 128 KiB. The requester pulls the pieces one by one:
- `download-file` makes the owner send chunk 1;
- each `upload-file-chunk` the requester receives makes it ask for the next chunk with `request-file-chunk`;
- the last chunk makes it reassemble and save the file.

This project models that core:
- **the catalog handlers**: password flags, deletions, listing, device renames and download counters;
- **the owner's replies** to the two download events;
- **the requester's `upload-file-chunk` handler**, in its two variants:
  - the *verifying* one (src/connection/index.ts) checks the hash of the reassembled content against the file id;
  - the *trusting* one (src/store/index.ts) saves whatever arrives;
- **`prepareSharedFiles`**, which turns picked files into owner entries;
- **the byte slicer `convertFileToArrayBufferChunks`**.

Modules:

- `Wrappers`:
  - `Option`, which stands for an event field that may be missing.
- `Seqs`:
  - `Flatten`, which joins pieces;
  - `Split`, which cuts into pieces;
  - `Filter`, JavaScript's `filter`;
  - first and last match;
  - their laws.
- `Protocol`:
  - the records of src/types.ts;
  - the effects a handler produces: emitted events and files handed to the saver;
  - `CHUNK_SIZE` and the integrity-error text.
- `Catalog`:
  - every catalog update as a function on the list, with its laws.
- `Transfer`:
  - the owner replies;
  - the upload-chunk handler of each variant as a function from the old peer state to the new one.
- `Session`:
  - whole downloads: the requester's state after chunks 1..k have arrived, in both variants;
  - how the owner's replies produce exactly those arrivals.
- `Store`:
  - the reactive state as a class `State`;
  - its handlers (the trusting variant) as methods whose `forEach` walks are loops.
  - Each method is proved to leave the state that `Catalog` or `Transfer` describes.
- `Connection`:
  - the handlers of src/connection/index.ts acting on that same store object.
  - The handlers it shares with the store delegate to the store's methods.
  - Its verifying upload-chunk handler is written out, with the reset-and-report loop of an integrity failure.
- `SharedFiles`:
  - `prepareSharedFiles`, with its per-character chunk loop;
  - the dedupe laws;
  - an end-to-end round trip through the verifying handler.
- `Binary`:
  - the slicing loop of `convertFileToArrayBufferChunks`.

Two consequences of the code that the model keeps:
- An empty base64 text gives no chunks at all, not one empty chunk: the loop at src/utilities/prepare-shared-files.ts:40-47 runs no step and the test at 48-50 pushes nothing. The slicer does the same for an empty buffer, since `Math.ceil(0 / CHUNK_SIZE)` is 0 (src/utilities/binary.ts:25-37). See `Seqs.Split`. A shared file with empty text is therefore never saved: the owner answers `download-file` with an absent chunk 1 of 0 (src/connection/index.ts:69-79), and none of the requester's four branch tests holds for it (src/connection/index.ts:178, 211, 240 and 261; src/store/index.ts:187, 200, 229 and 250). See `SharedFiles.EmptyFileNeverArrives`.
- The progress shown is `Math.round(currentChunk / (totalChunks / 100))` (src/connection/index.ts:215 and 248, src/store/index.ts:204 and 237). It reaches 100 before the last chunk of a long file: chunk 199 of 200 shows 100. See `Transfer.PercentHundredBeforeEnd`.

## Model

| member | source | states |
|---|---|---|
| Seqs.Flatten | src/connection/index.ts:293-296 | the reassembly of the received chunks, which stands for the empty `convertArrayBufferChunksToBlob` stub both at the hash check (266-268) and at the save: the chunks joined in order |
| Seqs.FlattenAppend | src/connection/index.ts:293-296 | reassembling two runs of chunks joins their reassemblies |
| Seqs.Split | src/utilities/prepare-shared-files.ts:40-50 | every piece is non-empty and at most `n` long; all but the last are exactly `n` long |
| Seqs.SplitLength | src/utilities/binary.ts:25 | a split has ceil(length / n) pieces, the `Math.ceil` of the slicer |
| Seqs.SplitFlatten | src/utilities/prepare-shared-files.ts:40-50 | joining the pieces gives back the text that was cut |
| Seqs.SplitAt | src/utilities/binary.ts:30-36 | piece `i` is the slice `[n*i, n*i+n)`, and the last piece runs to the end |
| Seqs.SplitAppend | src/utilities/prepare-shared-files.ts:41-47 | cutting a text whose first part is a whole number of pieces cuts each part separately |
| Seqs.Filter | src/connection/index.ts:40-42 | the result is no longer than the input, and holds exactly the elements that pass |
| Seqs.FilterMultiplicity | src/connection/index.ts:40-42 | each element that passes occurs as often as in the input; the others occur zero times |
| Seqs.FilterKeepsOrder | src/connection/index.ts:40-42 | the result is a subsequence of the input: order is kept |
| Seqs.FilterAppend | src/connection/index.ts:270-272 | filtering distributes over concatenation |
| Seqs.FindFirst | src/connection/index.ts:61-63 | no index when nothing passes; otherwise a passing index with no passing index before it |
| Seqs.FindLast | src/connection/index.ts:273-283 | no index when nothing passes; otherwise a passing index with no passing index after it |
| Catalog.Mirror | src/connection/index.ts:83-92 | the stored copy advertises the same file as the received entry, with the overlay reset and not owned |
| Catalog.MirrorIgnoresSenderOverlay | src/connection/index.ts:84-91 | two received entries that differ only in overlay and ownership are stored identically |
| Catalog.ListBatch | src/connection/index.ts:131-144 | a missing or empty batch changes nothing; otherwise the old catalog is a prefix, and entry `i` of the batch is appended as its mirror at position `|L|+i` |
| Catalog.WithoutOwner | src/connection/index.ts:45-49 | exactly the entries of other owners remain, with their multiplicities and in their order |
| Catalog.WithoutFile | src/connection/index.ts:51-55 | exactly the entries with another content id remain, whatever their owner, with their multiplicities and in order |
| Catalog.WithoutFileIdempotent | src/connection/index.ts:51-55 | deleting the same file twice is the same as deleting it once |
| Catalog.FirstOwned | src/connection/index.ts:61-63 | the first entry that has the id and is owned, or none when no such entry exists |
| Catalog.FirstWithId | src/connection/index.ts:109-111 | the first entry with the id, owned or not, or none when no such entry exists |
| Catalog.LastWithId | src/connection/index.ts:273-283 | the last entry with the id, or none when no such entry exists |
| Catalog.LookupsAgree | src/connection/index.ts:57-129 | when the first entry with the id is owned, `download-file` and `request-file-chunk` serve the same entry |
| Catalog.SetPassword | src/connection/index.ts:30-37 | the flag is set on exactly the entries keyed by (file id, owner id); every other field and entry is unchanged |
| Catalog.SetPasswordIdempotent | src/connection/index.ts:30-37 | applying the same password event twice is the same as applying it once |
| Catalog.SetPasswordLastWins | src/connection/index.ts:94-101 | of two password events for the same pair, the later one decides |
| Catalog.SetPasswordUnknownNoop | src/connection/index.ts:30-37 | an event for a pair no entry carries leaves the catalog unchanged |
| Catalog.RenameDevice | src/connection/index.ts:146-153 | the device name is set on every entry of the owner, and nothing else changes |
| Catalog.SetTotalDownloads | src/connection/index.ts:155-162 | the counter is set on every entry with the id, across all owners, and nothing else changes |
| Catalog.SetOverlay | src/connection/index.ts:286-292 | the three overlay fields are set on the entries with the id; the advertised fields and ownership are unchanged, and so are the other entries |
| Catalog.SetPercent | src/connection/index.ts:246-250 | only the percentage of the entries with the id changes |
| Catalog.OverlayLastWins | src/connection/index.ts:270-284 | an overlay update after another on the same file overrides it completely |
| Catalog.PercentAfterOverlay | src/store/index.ts:229-239 | a progress update after an overlay update is that overlay update with the new percentage |
| Transfer.PhaseOf | src/connection/index.ts:178-261 | the branch taken: single, first, middle or final chunk, or none of them, each given by its own condition on (current, total) |
| Transfer.Percent | src/connection/index.ts:215 | the integer nearest to 100*c/t, with halves rounded up |
| Transfer.PercentInRange | src/connection/index.ts:248 | for every chunk 1 <= c <= t, the progress is between 0 and 100 |
| Transfer.PercentAtEnd | src/connection/index.ts:248 | the last chunk reports 100 |
| Transfer.PercentThreeChunks | src/connection/index.ts:248 | a three-chunk file reports 33, then 67, then 100 |
| Transfer.PercentHundredBeforeEnd | src/connection/index.ts:248 | chunk 199 of 200 already reports 100 |
| Transfer.ChunkAt | src/connection/index.ts:118 | the chunk at the index, or undefined outside the array |
| Transfer.DownloadReply | src/connection/index.ts:57-81 | at most one event, and none exactly when the peer owns no entry with the id |
| Transfer.DownloadReplyServesFirst | src/connection/index.ts:57-81 | a reply is chunk 1 of the first owned entry with the id, with that entry's name, size, owner, type and chunk count |
| Transfer.ChunkReply | src/connection/index.ts:103-129 | at most one event, and none exactly when no entry has the id |
| Transfer.ChunkReplyServesFirst | src/connection/index.ts:103-129 | a reply is the requested chunk of the first entry with the id (undefined past its end), with that entry's metadata; ownership is not consulted |
| Transfer.OwnerServesFirstChunk | src/connection/index.ts:57-81 | the owner's chunk-1 event reads back at the requester as the delivery of chunk 1 |
| Transfer.AbsentChunkIgnored | src/connection/index.ts:103-129 | an upload event whose chunk is absent asks for a chunk past the entry's end, so the requester's `PhaseOf` is `Ignored` and the event does not read back as an arrival |
| Transfer.OwnerServesChunk | src/connection/index.ts:103-129 | when the first entry with the id is the owner's own, its event for chunk `c` reads back as the delivery of chunk `c` |
| Transfer.MirrorShadowsOwnEntry | src/connection/index.ts:57-129 | a mirror listed before the owner's own entry is what `request-file-chunk` serves, with an absent chunk when the mirror holds none, while `download-file` serves the owned entry |
| Transfer.FirstDownload | src/connection/index.ts:262-264 | the first download record for the id, or none when there is no record |
| Transfer.RecordsFor | src/connection/index.ts:262-264 | exactly the records for the id |
| Transfer.WithoutDownload | src/connection/index.ts:270-272 | the records for the id are gone, and the records of every other id are unchanged |
| Transfer.FilterOfFilter | src/connection/index.ts:297-299 | dropping one id's records keeps the records of every other id |
| Transfer.AppendChunk | src/connection/index.ts:241-245 | the chunk is appended to every record for the id, and the other records are unchanged |
| Transfer.AppendToOnlyRecord | src/connection/index.ts:241-245 | with exactly one record for the id, exactly that record grows by the chunk |
| Transfer.NoRecordUnchanged | src/connection/index.ts:241-245 | with no record for the id, appending changes nothing |
| Transfer.FailureError | src/connection/index.ts:273-283 | the error is either the previous one or the integrity error naming an entry with the id |
| Transfer.FailureErrorIsLast | src/connection/index.ts:273-283 | the error is the previous one when no entry has the id; otherwise it names the last such entry |
| Transfer.FailureErrorSnoc | src/connection/index.ts:273-283 | one more entry replaces the error exactly when that entry has the id |
| Transfer.ReceiveVerified | src/connection/index.ts:164-301 | the catalog keeps its length; a final chunk without a record faults and changes nothing; an ignored event changes nothing |
| Transfer.ReceiveTrusted | src/store/index.ts:175-270 | a final chunk without a record faults after marking the file completed; an ignored event changes nothing |
| Transfer.VariantsAgreeUntilCompletion | src/store/index.ts:200-249 | on first, middle and ignored events, the two variants produce the same state |
| Transfer.FirstChunkOpensRecord | src/connection/index.ts:211-239 | chunk 1 of several appends one record holding it, marks the file downloading and asks for chunk 2 |
| Transfer.MiddleChunkExtendsRecord | src/connection/index.ts:240-260 | a middle chunk extends the only record, moves the percentage within 0..100 and asks for the next chunk |
| Transfer.MiddleIsContinue | src/store/index.ts:229-249 | a middle chunk appends, updates the progress and requests the next chunk, and never faults |
| Transfer.FinalMismatchFails | src/connection/index.ts:261-285 | a final chunk whose content fails the check drops the records, resets the overlay and records the error, on the table with the chunk pushed |
| Transfer.VerifiedCompletionAccepts | src/connection/index.ts:178-300 | content that passes: the entries are completed at 100, one save of exactly the reassembled content is emitted, and the error is unchanged; after a final chunk no record for the file is left, and a single chunk leaves the table as it was |
| Transfer.VerifiedCompletionRejects | src/connection/index.ts:178-285 | content that fails: the overlay is reset, nothing is emitted and no record is left; the error names the file when the catalog lists it, and is unchanged otherwise |
| Transfer.FailResets | src/connection/index.ts:269-284 | the integrity-failure step resets the overlay, leaves the outbox alone and drops the records |
| Transfer.FailReportsError | src/connection/index.ts:273-283 | after the reset, the error names the file with its overlay reset when it is listed, and is unchanged otherwise |
| Transfer.TrustedCompletionAccepts | src/store/index.ts:250-269 | every completing event is saved, whatever its content: completed at 100 and exactly one save of the reassembled content; after a final chunk no record for the file is left, and a single chunk leaves the table as it was |
| Transfer.FinalCompletes | src/store/index.ts:250-268 | a final chunk with a record for the file completes the file's entries, saves the first record's chunks with the chunk pushed under that record's name, and drops every record for the file |
| Transfer.VariantsAgreeWhenContentMatches | src/connection/index.ts:178-300 | when the content passes the check, the two variants produce the same outcome |
| Transfer.RecordsForAppend | src/connection/index.ts:229 | pushing a record extends the records for its id, in order |
| Transfer.RecordsForPointwise | src/connection/index.ts:241-245 | two tables that agree wherever either holds the id give the same records for it |
| Transfer.AppendChunkKeepsOthers | src/connection/index.ts:241-245 | appending to one id's records leaves the records of every other id unchanged |
| Transfer.AppendChunkToLast | src/connection/index.ts:241-245 | when the table had no record for the id before the last one, appending extends exactly that record |
| Transfer.FirstDownloadOfLast | src/connection/index.ts:262-264 | when the table had no record for the id before the last one, the lookup finds the last one |
| Transfer.OpenRecordKeepsRest | src/connection/index.ts:270-272 | dropping the id's records undoes pushing a record for it |
| Transfer.WithoutAbsent | src/connection/index.ts:270-272 | dropping the records of an id with none changes nothing |
| Transfer.OnlyRecordFound | src/connection/index.ts:262-264 | the destructured first match is the only record there is |
| Session.RequestsAskInOrder | src/connection/index.ts:251-259 | request `j` of a download asks the same owner for chunk `j + 2` of the same file |
| Session.TrustedPrefix | src/store/index.ts:200-249 | starting with no record for the file, after chunks 1..k the requester is exactly in the `Prefix` state: its table is the old one plus one record holding exactly those chunks, it has asked for each next chunk, the file shows downloading at the rounded percentage of k, and the error is untouched |
| Session.FirstStep | src/store/index.ts:200-228 | chunk 1 produces the `Prefix` state for k = 1 |
| Session.MiddleStep | src/store/index.ts:229-249 | a middle chunk carries the `Prefix` state from k - 1 to k |
| Session.FinalChunkCompletesRecord | src/store/index.ts:250-265 | from the `Prefix` state, the final chunk finds the record just added; with the chunk pushed, that record holds every chunk of the file, so the reassembled content is the whole file |
| Session.FinalStep | src/store/index.ts:250-269 | from the `Prefix` state, the trusting handler does not fault on the final chunk and reaches `Downloaded` |
| Session.FinalAccepts | src/connection/index.ts:261-300 | from the `Prefix` state, the verifying handler reaches `Downloaded` when the content hashes to the id |
| Session.FinalRejects | src/connection/index.ts:261-285 | from the `Prefix` state, the verifying handler reaches `Rejected` when it does not |
| Session.SingleCompletes | src/store/index.ts:187-199 | a one-chunk file is saved on arrival without faulting, which is `Downloaded` with no request |
| Session.TrustedLastChunk | src/store/index.ts:175-270 | the last chunk of a whole trusting download never faults and produces `Downloaded` |
| Session.MultiLastChunk | src/store/index.ts:200-270 | the same for a file of two or more chunks |
| Session.TrustedComplete | src/store/index.ts:175-270 | starting with no record for the file, a whole trusting download does not fault and ends in `Downloaded`: the download table as it was, t - 1 requests then one save of the whole content under the file name the owner sent, the file completed, the error untouched |
| Session.VerifiedPrefixAgrees | src/connection/index.ts:211-260 | before the last chunk, the verifying download is in the same state as the trusting one |
| Session.VerifiedAccepts | src/connection/index.ts:164-301 | starting with no record for the file, when the content hashes to the id, the verifying download also ends in `Downloaded` |
| Session.SingleAccepts | src/connection/index.ts:178-209 | the same for a one-chunk file |
| Session.VerifiedRejects | src/connection/index.ts:164-285 | starting with no record for the file, when the content does not hash to the id, the download ends in `Rejected`: the table as it was, the t - 1 requests and no save, the file's entries reset and the error the reset loop leaves |
| Session.SingleRejects | src/connection/index.ts:178-196 | the same for a one-chunk file |
| Session.StaleRecordIsSaved | src/store/index.ts:200-268 | a record left over from an earlier fetch of the same file is the one the final chunk completes: a two-chunk download saves the old record's chunks followed by the new last chunk, which is not the file's content unless the old chunks join to the new first chunk |
| Session.OwnerAnswersRequests | src/connection/index.ts:57-129 | an owner whose first entry with the id is its own answers `download-file` with chunk 1 and each request for chunk `c` with chunk `c`, each read back as the matching delivery |
| Store.State.constructor | src/store/index.ts:29-39 | not connected, empty catalog and download table, no error, nothing sent |
| Store.State.MarkPassword | src/store/index.ts:41-48 | the loop leaves the catalog `SetPassword` describes |
| Store.State.ChangePassword | src/store/index.ts:41-48 | the flag is set on the keyed entries; missing fields read as "" |
| Store.State.RemoveFilePassword | src/store/index.ts:105-112 | the flag is cleared on the keyed entries; missing fields read as "" |
| Store.State.ClientDisconnect | src/store/index.ts:50-54 | a missing id keeps every entry; otherwise the entries of that owner are dropped |
| Store.State.DeleteAllFiles | src/store/index.ts:56-60 | the entries of the owner are dropped, with "" for a missing owner |
| Store.State.DeleteFile | src/store/index.ts:62-66 | the entries with the id are dropped, with "" for a missing id |
| Store.State.DownloadFile | src/store/index.ts:68-92 | the outbox grows by the owner's reply, and `sent` says whether there was one |
| Store.State.ListFile | src/store/index.ts:94-103 | the received entry is appended as its mirror |
| Store.State.RequestFileChunk | src/store/index.ts:114-140 | the outbox grows by the chunk reply, and `sent` says whether there was one |
| Store.State.RequestListedFiles | src/store/index.ts:142-155 | the loop appends the mirrors of the batch, as `ListBatch` describes |
| Store.State.UpdateDeviceName | src/store/index.ts:157-164 | the loop renames the owner's entries, as `RenameDevice` describes |
| Store.State.UpdateTotalDownloads | src/store/index.ts:166-173 | the loop sets the counter, as `SetTotalDownloads` describes, with 0 for a missing value |
| Store.State.MarkOverlay | src/store/index.ts:188-194 | the loop sets the overlay, as `SetOverlay` describes |
| Store.State.MarkPercent | src/store/index.ts:235-239 | the loop sets the percentage, as `SetPercent` describes |
| Store.State.AppendToRecords | src/store/index.ts:230-234 | the loop appends the chunk to the records, as `AppendChunk` describes |
| Store.State.UploadFileChunk | src/store/index.ts:175-270 | the new state and the fault are those of `ReceiveTrusted`, and the error is never touched |
| Connection.ChangePassword | src/connection/index.ts:30-37 | the flag is set on the keyed entries of the store's catalog |
| Connection.ClientDisconnect | src/connection/index.ts:39-43 | a missing id keeps the catalog; otherwise that owner's entries are dropped |
| Connection.DeleteAllFiles | src/connection/index.ts:45-49 | the owner's entries are dropped |
| Connection.DeleteFile | src/connection/index.ts:51-55 | the entries with the id are dropped |
| Connection.DownloadFile | src/connection/index.ts:57-81 | the store's outbox grows by the owner's reply, and `sent` says whether there was one |
| Connection.ListFile | src/connection/index.ts:83-92 | the mirror of the entry is appended |
| Connection.RemoveFilePassword | src/connection/index.ts:94-101 | the flag is cleared on the keyed entries |
| Connection.RequestFileChunk | src/connection/index.ts:103-129 | the store's outbox grows by the chunk reply, and `sent` says whether there was one |
| Connection.RequestListedFiles | src/connection/index.ts:131-144 | the batch is appended as mirrors |
| Connection.UpdateDeviceName | src/connection/index.ts:146-153 | the owner's entries are renamed |
| Connection.UpdateTotalDownloads | src/connection/index.ts:155-162 | the counter is set on every entry with the id |
| Connection.ResetEntries | src/connection/index.ts:273-283 | the loop leaves the reset catalog and the error `FailureError` gives for it |
| Connection.ReportMismatch | src/connection/index.ts:269-284 | the store's catalog is reset for the id, and its error is the one the loop leaves |
| Connection.ReportStep | src/connection/index.ts:273-283 | one loop step: an entry with the id becomes the error, any other entry keeps it |
| Connection.UploadFileChunk | src/connection/index.ts:164-301 | the new store and the fault are those of `ReceiveVerified` |
| SharedFiles.MatchesIffListed | src/utilities/prepare-shared-files.ts:18-22 | the `filter(...).length` test is non-zero exactly when the catalog holds an entry with the hash, name and size |
| SharedFiles.OwnerEntry | src/utilities/prepare-shared-files.ts:23-50 | the new entry is owned, keyed by the hash, with the overlay reset and no password; its chunks cut the base64 text into pieces of at most CHUNK_SIZE that join back to it; its `fileName` and `fileSize` are taken from the picked file, which the source does not do (see the Left out section) |
| SharedFiles.KeptSound | src/utilities/prepare-shared-files.ts:17-22 | every kept file is one the catalog did not hold |
| SharedFiles.KeptComplete | src/utilities/prepare-shared-files.ts:17-22 | every file the catalog did not hold is kept |
| SharedFiles.KeptIncreasing | src/utilities/prepare-shared-files.ts:17-54 | kept files come in the order they were picked |
| SharedFiles.SharedAreKept | src/utilities/prepare-shared-files.ts:17-54 | the result is, in order, the owner entry of each kept file and nothing else |
| SharedFiles.PickedTwiceListedTwice | src/utilities/prepare-shared-files.ts:18-21 | the check reads only the catalog passed in, so the same new file picked twice yields two entries |
| SharedFiles.ListedStaysListed | src/utilities/prepare-shared-files.ts:18-21 | a file listed in a catalog stays listed when the catalog grows |
| SharedFiles.ListedAfterSharing | src/utilities/prepare-shared-files.ts:17-55 | once the result is added to the catalog, every picked file is listed |
| SharedFiles.ShareAgainAddsNothing | src/utilities/prepare-shared-files.ts:17-55 | sharing the same files again after that adds no entry |
| SharedFiles.ChunkEncoded | src/utilities/prepare-shared-files.ts:40-50 | the per-character loop produces exactly `Split(text, CHUNK_SIZE)` |
| SharedFiles.PrepareSharedFiles | src/utilities/prepare-shared-files.ts:6-56 | the result is the owner entries of the files not yet listed, in the order they were picked |
| SharedFiles.SharedFileRoundTrip | src/utilities/prepare-shared-files.ts:23-50 | a shared entry of non-empty text has at least one chunk; fetched with the verifying handler by a requester with no record for the file, it ends in `Downloaded`, whose one save holds exactly that text under the entry's `fileName`, when the text hashes to the id, and in `Rejected` otherwise |
| SharedFiles.EmptyFileNeverArrives | src/utilities/prepare-shared-files.ts:40-50 | a file with empty text is shared with no chunks; the owner answers `download-file` with an absent chunk 1 of 0, and for any chunk value both requester variants leave the state unchanged without a fault, so nothing is saved |
| Binary.ConvertToArrayBufferChunks | src/utilities/binary.ts:12-42 | no reader result gives no chunks; otherwise the slices are exactly `Split(bytes, CHUNK_SIZE)` |
| Binary.ChunksRoundTrip | src/utilities/binary.ts:25-37 | the slices join back to the bytes read, none is empty, and none is longer than CHUNK_SIZE |

## Left out

- SharedFiles.OwnerEntry: the source entry carries the picked file's name and size only under the keys `name` and `size` (src/utilities/prepare-shared-files.ts:34 and 36), but the owner's handlers read `fileName`, `fileSize` and `fileType` (src/connection/index.ts:73-78 and 121-126). In the source an owner therefore sends `fileName` and `fileSize` as undefined, and the requester saves the file under an undefined name. The model has one name and one size per entry, and `OwnerEntry` fills `fileName` and `fileSize` from the picked file, so the save name in `SharedFiles.SharedFileRoundTrip` is the picked file's name only in the model.
- Session.TrustedPrefix, Session.TrustedComplete, Session.VerifiedAccepts and Session.VerifiedRejects describe a download that starts with no record for the file. A record left by an earlier, abandoned fetch of the same file is completed instead of the new one; `Session.StaleRecordIsSaved` shows what is then saved.
- Socket plumbing is not modelled: the connection options, `connect`, `handleDisconnect` and the handler registration. `connected` is a field that no modelled handler changes.
- `async`/`await` is not modelled. Each handler runs to completion, and events arrive one at a time.
- Emitted events and `saveFileOnDisk` are not performed. They are appended to an `outbox` as effects. A handler's `Socket`/`null` return value is the boolean `sent`.
- `getHash` is a function parameter `digest`, and the base64 encoding is a given input. src/utilities/get-hash.ts and src/utilities/base64.ts are not part of this model.
- `convertArrayBufferChunksToBlob` has an empty body in the source. The model takes reassembly to be the concatenation of the chunks (`Flatten`). The content is saved as text, not as a `Blob` of a MIME type.
- Aliasing is not modelled. The catalog holds values, so `downloadFileError.file` is a copy of the reset entry taken when the error is recorded. The source stores the catalog object itself (src/connection/index.ts:193 and 280), so its recorded entry follows later in-place updates of that object: password changes (32-34, 96-98), device renames (148-150), download counters (157-159) and the overlay updates of a later download of the same file (212-215, 246-248, 286-289). The model's recorded entry tracks none of these.
- `Math.round` is applied to the exact quotient `100 * c / t`. Floating-point rounding of `totalChunks / 100` is not modelled.
- Missing payload fields are not modelled for `request-file-chunk` and `upload-file-chunk`: `ChunkRequest` and `ChunkData` are total records, so an absent `chunkIndex`, `fileId`, `targetId`, `currentChunk` or `totalChunks` cannot be expressed.
- `createdAt` (`Date.now`), `grant`, `private` and the `console.log` calls are not modelled.
- The `FileReader` is not modelled. The slicer receives an `Option` of the bytes, where `None` stands for a missing target or a missing result.
- `fileType` is "" and `totalDownloads` is 0 in an owner entry, because `prepareSharedFiles` sets neither.
- `fileSize` is an integer throughout. The source declares it as a string in the chunk envelopes.
