/**
 * The chunk-transfer protocol as functions on a `Peer` value: what the owner
 * answers to `download-file` and `request-file-chunk`, and how the requester's
 * `upload-file-chunk` handler moves the catalog overlay, the download table
 * and the outbox, in the verifying variant (connection/index.ts) and the
 * trusting variant (store/index.ts).
 */
module Transfer {
  import opened Wrappers
  import opened Seqs
  import opened Protocol
  import opened Catalog

  /** The branch of the upload-chunk handler an event with (`currentChunk`, `totalChunks`) takes. */
  datatype Phase = Single | First | Middle | Final | Ignored

  function PhaseOf(currentChunk: int, totalChunks: int): (ph: Phase)
    ensures ph == Single <==> currentChunk == 1 && totalChunks == 1
    ensures ph == First <==> currentChunk == 1 && totalChunks > 1
    ensures ph == Middle <==> 1 < currentChunk < totalChunks
    ensures ph == Final <==> currentChunk == totalChunks && currentChunk != 1
    ensures ph == Ignored <==> currentChunk != totalChunks && (currentChunk < 1 || currentChunk > totalChunks)
  {
    if currentChunk == 1 && totalChunks == 1 then Single
    else if currentChunk == 1 && totalChunks > 1 then First
    else if currentChunk > 1 && currentChunk < totalChunks then Middle
    else if currentChunk == totalChunks then Final
    else Ignored
  }

  /**
   * `Math.round(currentChunk / (totalChunks / 100))` on exact rationals:
   * the integer nearest to 100 * c / t, halves rounded up.
   */
  function Percent(c: int, t: int): (p: int)
    requires t > 0
    ensures 2 * t * p - t <= 200 * c < 2 * t * p + t
  {
    var x, d := 200 * c + t, 2 * t;
    assert x == d * (x / d) + x % d;
    x / d
  }

  /** For a chunk of the file (1 <= c <= t) the progress is a percentage. */
  lemma PercentInRange(c: int, t: int)
    requires 1 <= c <= t
    ensures 0 <= Percent(c, t) <= 100
  {
    var p := Percent(c, t);
    assert t * (2 * p - 201) <= 0 by {
      assert t * (2 * p - 201) == 2 * t * p - 201 * t;
    }
    NonPositiveFactor(t, 2 * p - 201);
    assert t * (2 * p + 1) > 0 by {
      assert t * (2 * p + 1) == 2 * t * p + t;
    }
    PositiveFactor(t, 2 * p + 1);
  }

  lemma PositiveFactor(t: int, a: int)
    requires t > 0 && t * a > 0
    ensures a > 0
  {
  }

  lemma NonPositiveFactor(t: int, a: int)
    requires t > 0 && t * a <= 0
    ensures a <= 0
  {
  }

  /** The last chunk always reports 100 %. */
  lemma PercentAtEnd(t: int)
    requires t > 0
    ensures Percent(t, t) == 100
  {
    DivUnique(201 * t, 2 * t, 100, t);
  }

  /** A three-chunk file reports 33, 67 and 100. */
  lemma PercentThreeChunks()
    ensures Percent(1, 3) == 33 && Percent(2, 3) == 67 && Percent(3, 3) == 100
  {
  }

  /** Rounding reaches 100 before the last chunk: chunk 199 of 200 is 99.5 %, rounded up. */
  lemma PercentHundredBeforeEnd()
    ensures Percent(199, 200) == 100
  {
  }

  /** `chunks[index]` in JavaScript: absent (undefined) outside the array. */
  function ChunkAt(chunks: seq<string>, index: int): (r: Option<string>)
    ensures r.Some? <==> 0 <= index < |chunks|
    ensures r.Some? ==> r.value == chunks[index]
  {
    if 0 <= index < |chunks| then Some(chunks[index]) else None
  }

  /** The upload event an owner sends for chunk `currentChunk` of its entry `e`. */
  function UploadOf(e: Entry, currentChunk: int, fileId: string, targetId: string): Effect
  {
    UploadFileChunk(ChunkAt(e.chunks, currentChunk - 1), currentChunk, fileId, e.fileName, e.fileSize,
                    e.ownerId, targetId, |e.chunks|, e.fileType)
  }

  /**
   * Owner's answer to `download-file`: nothing when it owns no entry with that
   * id, else chunk 1 of the first such entry.
   */
  function DownloadReply(L: seq<Entry>, fileId: string, targetId: string): (r: seq<Effect>)
    ensures |r| <= 1
    ensures r == [] <==> forall i :: 0 <= i < |L| ==> !(L[i].id == fileId && L[i].isOwner)
  {
    match FirstOwned(L, fileId)
    case None => []
    case Some(i) => [UploadOf(L[i], 1, fileId, targetId)]
  }

  /** A reply to `download-file` carries chunk 1 of the first owned entry with the id. */
  lemma DownloadReplyServesFirst(L: seq<Entry>, fileId: string, targetId: string)
    ensures var r := DownloadReply(L, fileId, targetId);
      r != [] ==> exists i :: (0 <= i < |L| && L[i].id == fileId && L[i].isOwner
        && (forall j :: 0 <= j < i ==> !(L[j].id == fileId && L[j].isOwner))
        && r == [UploadFileChunk(ChunkAt(L[i].chunks, 0), 1, fileId, L[i].fileName, L[i].fileSize,
                                 L[i].ownerId, targetId, |L[i].chunks|, L[i].fileType)])
  {
    var found := FirstOwned(L, fileId);
    if found.Some? {
      var i := found.value;
      assert 0 <= i < |L| && L[i].id == fileId && L[i].isOwner;
    }
  }

  /**
   * Owner's answer to `request-file-chunk`: nothing when no entry has that id,
   * else chunk `chunkIndex` of the first entry with it, owned or not.
   */
  function ChunkReply(L: seq<Entry>, req: ChunkRequest): (r: seq<Effect>)
    ensures |r| <= 1
    ensures r == [] <==> forall i :: 0 <= i < |L| ==> L[i].id != req.fileId
  {
    match FirstWithId(L, req.fileId)
    case None => []
    case Some(i) => [UploadOf(L[i], req.chunkIndex, req.fileId, req.targetId)]
  }

  /** A reply to `request-file-chunk` carries the requested chunk of the first entry with the id. */
  lemma ChunkReplyServesFirst(L: seq<Entry>, req: ChunkRequest)
    ensures var r := ChunkReply(L, req);
      r != [] ==> exists i :: (0 <= i < |L| && L[i].id == req.fileId
        && (forall j :: 0 <= j < i ==> L[j].id != req.fileId)
        && r == [UploadFileChunk(ChunkAt(L[i].chunks, req.chunkIndex - 1), req.chunkIndex, req.fileId,
                                 L[i].fileName, L[i].fileSize, L[i].ownerId, req.targetId,
                                 |L[i].chunks|, L[i].fileType)])
  {
    var found := FirstWithId(L, req.fileId);
    if found.Some? {
      var i := found.value;
      var e := L[i];
      var u := UploadFileChunk(ChunkAt(e.chunks, req.chunkIndex - 1), req.chunkIndex, req.fileId,
                               e.fileName, e.fileSize, e.ownerId, req.targetId, |e.chunks|, e.fileType);
      assert ChunkReply(L, req) == [u];
      assert 0 <= i < |L| && e.id == req.fileId && (forall j :: 0 <= j < i ==> L[j].id != req.fileId);
    }
  }

  /** The inbound event chunk `k` of entry `e` arrives as at the requester. */
  function Delivery(e: Entry, fileId: string, targetId: string, k: nat): ChunkData
    requires 1 <= k <= |e.chunks|
  {
    ChunkData(e.chunks[k - 1], k, fileId, e.fileName, e.fileSize, e.ownerId, targetId, |e.chunks|, e.fileType)
  }

  /** The upload event, read back as the requester receives it (only when it carries a chunk). */
  function Received(eff: Effect): Option<ChunkData>
  {
    match eff
    case UploadFileChunk(Some(chunk), c, fileId, fileName, fileSize, ownerId, targetId, t, fileType) =>
      Some(ChunkData(chunk, c, fileId, fileName, fileSize, ownerId, targetId, t, fileType))
    case _ => None
  }

  /**
   * An upload event whose chunk is absent asks for a chunk past the end of
   * the entry, so the requester's handler takes none of its branches.
   */
  lemma AbsentChunkIgnored(e: Entry, currentChunk: int, fileId: string, targetId: string)
    requires currentChunk >= 1 && UploadOf(e, currentChunk, fileId, targetId).chunk.None?
    ensures PhaseOf(currentChunk, |e.chunks|) == Ignored
    ensures Received(UploadOf(e, currentChunk, fileId, targetId)) == None
  {
    assert currentChunk > |e.chunks|;
  }

  /** An owner that owns the first entry with `fileId` answers `download-file` with its chunk 1. */
  lemma OwnerServesFirstChunk(L: seq<Entry>, fileId: string, targetId: string, i: nat)
    requires FirstWithId(L, fileId) == Some(i) && L[i].isOwner && 1 <= |L[i].chunks|
    ensures DownloadReply(L, fileId, targetId) == [UploadOf(L[i], 1, fileId, targetId)]
    ensures Received(UploadOf(L[i], 1, fileId, targetId)) == Some(Delivery(L[i], fileId, targetId, 1))
  {
    LookupsAgree(L, fileId, i);
    assert ChunkAt(L[i].chunks, 0) == Some(L[i].chunks[0]);
  }

  /** An owner whose first entry with `fileId` is its own answers request `k` with chunk `k` of it. */
  lemma OwnerServesChunk(L: seq<Entry>, req: ChunkRequest, i: nat)
    requires FirstWithId(L, req.fileId) == Some(i) && 1 <= req.chunkIndex <= |L[i].chunks|
    ensures ChunkReply(L, req) == [UploadOf(L[i], req.chunkIndex, req.fileId, req.targetId)]
    ensures Received(UploadOf(L[i], req.chunkIndex, req.fileId, req.targetId))
         == Some(Delivery(L[i], req.fileId, req.targetId, req.chunkIndex))
  {
    assert ChunkAt(L[i].chunks, req.chunkIndex - 1) == Some(L[i].chunks[req.chunkIndex - 1]);
  }

  /**
   * `request-file-chunk` looks the entry up by id alone: a mirror of the file
   * listed before the owner's own entry is the one served, while
   * `download-file` serves the owned entry. A mirror without chunks answers
   * with an absent chunk, which the requester does not take as an arrival.
   */
  lemma MirrorShadowsOwnEntry(m: Entry, o: Entry, req: ChunkRequest)
    requires m.id == req.fileId && o.id == req.fileId && !m.isOwner && o.isOwner
    requires m.chunks == [] && 1 <= req.chunkIndex <= |o.chunks|
    ensures ChunkReply([m, o], req) == [UploadOf(m, req.chunkIndex, req.fileId, req.targetId)]
    ensures ChunkReply([m, o], req)[0].chunk == None && Received(ChunkReply([m, o], req)[0]) == None
    ensures DownloadReply([m, o], req.fileId, req.targetId) == [UploadOf(o, 1, req.fileId, req.targetId)]
  {
    var L := [m, o];
    assert FirstWithId(L, req.fileId) == Some(0);
    var k := FirstOwned(L, req.fileId);
    assert L[1].id == req.fileId && L[1].isOwner;
    assert k.Some? && k.value != 0 && k.value < 2;
  }

  /** The first download record for `fileId` (destructuring `[downloadedFile] = downloads.filter(...)`). */
  function FirstDownload(D: seq<Download>, fileId: string): (r: Option<nat>)
    ensures r.None? <==> forall i :: 0 <= i < |D| ==> D[i].fileId != fileId
    ensures r.Some? ==> r.value < |D| && D[r.value].fileId == fileId
    ensures r.Some? ==> forall i :: 0 <= i < r.value ==> D[i].fileId != fileId
  {
    FindFirst(D, (d: Download) => d.fileId == fileId)
  }

  /** The download records for `fileId`, in table order. */
  function RecordsFor(D: seq<Download>, fileId: string): (r: seq<Download>)
    ensures forall d :: d in r <==> d in D && d.fileId == fileId
  {
    Filter(D, (d: Download) => d.fileId == fileId)
  }

  /** The download table without the records for `fileId`. */
  function WithoutDownload(D: seq<Download>, fileId: string): (r: seq<Download>)
    ensures forall d :: d in r <==> d in D && d.fileId != fileId
    ensures RecordsFor(r, fileId) == []
    ensures forall f :: f != fileId ==> RecordsFor(r, f) == RecordsFor(D, f)
  {
    var keep := (d: Download) => d.fileId != fileId;
    var r := Filter(D, keep);
    forall i | 0 <= i < |r| ensures r[i].fileId != fileId {
      assert r[i] in r;
    }
    FilterNone(r, (d: Download) => d.fileId == fileId);
    forall f | f != fileId ensures RecordsFor(r, f) == RecordsFor(D, f) {
      FilterOfFilter(D, fileId, f);
    }
    r
  }

  lemma {:induction false} FilterOfFilter(D: seq<Download>, gone: string, f: string)
    requires f != gone
    ensures RecordsFor(Filter(D, (d: Download) => d.fileId != gone), f) == RecordsFor(D, f)
    decreases |D|
  {
    if D != [] {
      FilterOfFilter(D[1..], gone, f);
      assert D == [D[0]] + D[1..];
      var keep := (d: Download) => d.fileId != gone;
      var inner := Filter(D, keep);
      assert inner == (if keep(D[0]) then [D[0]] else []) + Filter(D[1..], keep);
      FilterAppend(if keep(D[0]) then [D[0]] else [], Filter(D[1..], keep), (d: Download) => d.fileId == f);
      FilterAppend([D[0]], D[1..], (d: Download) => d.fileId == f);
    }
  }

  /** Every record for `fileId` gets `chunk` appended (the middle-chunk `forEach`). */
  function AppendChunk(D: seq<Download>, fileId: string, chunk: string): (r: seq<Download>)
    ensures |r| == |D|
    ensures forall i :: 0 <= i < |D| && D[i].fileId == fileId ==> r[i] == D[i].(chunks := D[i].chunks + [chunk])
    ensures forall i :: 0 <= i < |D| && D[i].fileId != fileId ==> r[i] == D[i]
  {
    if D == [] then []
    else
      [if D[0].fileId == fileId then D[0].(chunks := D[0].chunks + [chunk]) else D[0]]
      + AppendChunk(D[1..], fileId, chunk)
  }

  /** With exactly one record for `fileId`, appending a chunk extends exactly that record. */
  lemma {:induction false} AppendToOnlyRecord(D: seq<Download>, fileId: string, chunk: string, rec: Download)
    requires RecordsFor(D, fileId) == [rec]
    ensures RecordsFor(AppendChunk(D, fileId, chunk), fileId) == [rec.(chunks := rec.chunks + [chunk])]
    decreases |D|
  {
    var p := (d: Download) => d.fileId == fileId;
    var A := AppendChunk(D, fileId, chunk);
    assert D == [D[0]] + D[1..];
    assert A == [A[0]] + A[1..];
    assert RecordsFor(D, fileId) == (if p(D[0]) then [D[0]] else []) + RecordsFor(D[1..], fileId);
    assert RecordsFor(A, fileId) == (if p(A[0]) then [A[0]] else []) + RecordsFor(A[1..], fileId);
    assert A[1..] == AppendChunk(D[1..], fileId, chunk);
    if p(D[0]) {
      NoRecordUnchanged(D[1..], fileId, chunk);
    } else {
      AppendToOnlyRecord(D[1..], fileId, chunk, rec);
    }
  }

  lemma NoRecordUnchanged(D: seq<Download>, fileId: string, chunk: string)
    requires RecordsFor(D, fileId) == []
    ensures AppendChunk(D, fileId, chunk) == D
    ensures RecordsFor(AppendChunk(D, fileId, chunk), fileId) == []
  {
    forall i | 0 <= i < |D| ensures D[i].fileId != fileId {
      assert D[i] in D;
    }
  }

  /** `downloadFileError` after the overlay reset: the last reset entry for `fileId`, if any. */
  function FailureError(L: seq<Entry>, fileId: string, prev: Option<DownloadError>): (r: Option<DownloadError>)
    ensures r == prev || (r.Some? && r.value.errorText == DOWNLOAD_ERROR_TEXT && r.value.file.id == fileId)
  {
    match LastWithId(L, fileId)
    case None => prev
    case Some(i) => Some(DownloadError(DOWNLOAD_ERROR_TEXT, L[i]))
  }

  /** The error is the previous one when no entry has the id, else the last entry that has it. */
  lemma FailureErrorIsLast(L: seq<Entry>, fileId: string, prev: Option<DownloadError>)
    ensures (forall i :: 0 <= i < |L| ==> L[i].id != fileId) ==> FailureError(L, fileId, prev) == prev
    ensures (exists i :: 0 <= i < |L| && L[i].id == fileId) ==>
      exists i :: (0 <= i < |L| && L[i].id == fileId && (forall j :: i < j < |L| ==> L[j].id != fileId)
        && FailureError(L, fileId, prev) == Some(DownloadError(DOWNLOAD_ERROR_TEXT, L[i])))
  {
    var last := LastWithId(L, fileId);
    if last.Some? {
      var i := last.value;
      assert 0 <= i < |L| && L[i].id == fileId && (forall j :: i < j < |L| ==> L[j].id != fileId)
        && FailureError(L, fileId, prev) == Some(DownloadError(DOWNLOAD_ERROR_TEXT, L[i]));
    }
  }

  /** Integrity failure: records for `fileId` dropped, its overlay reset, the error recorded. */
  function Fail(p: Peer, fileId: string): Peer
  {
    var L := SetOverlay(p.listedFiles, fileId, 0, false, false);
    p.(downloads := WithoutDownload(p.downloads, fileId), listedFiles := L,
       downloadFileError := FailureError(L, fileId, p.downloadFileError))
  }

  /** The entries for `fileId` marked completed at 100 %. */
  function Completed(L: seq<Entry>, fileId: string): seq<Entry>
  {
    SetOverlay(L, fileId, 100, false, true)
  }

  /** The request for the chunk after the one in `ev`. */
  function NextRequest(ev: ChunkData): ChunkRequest
  {
    ChunkRequest(ev.currentChunk + 1, ev.fileId, ev.ownerId, ev.targetId)
  }

  /** First chunk of a multi-chunk file: overlay started, a record opened, chunk 2 requested. */
  function Begin(p: Peer, ev: ChunkData): Peer
    requires ev.totalChunks > 0
  {
    p.(listedFiles := SetOverlay(p.listedFiles, ev.fileId, Percent(ev.currentChunk, ev.totalChunks), true, false),
       downloads := p.downloads + [Download([ev.chunk], ev.currentChunk == ev.totalChunks, ev.fileId, ev.fileName,
                                            ev.fileSize, ev.ownerId, ev.totalChunks, ev.fileType)],
       outbox := p.outbox + [RequestFileChunk(NextRequest(ev))])
  }

  /** A middle chunk: appended to the records, progress updated, the next chunk requested. */
  function Continue(p: Peer, ev: ChunkData): Peer
    requires ev.totalChunks > 0
  {
    p.(downloads := AppendChunk(p.downloads, ev.fileId, ev.chunk),
       listedFiles := SetPercent(p.listedFiles, ev.fileId, Percent(ev.currentChunk, ev.totalChunks)),
       outbox := p.outbox + [RequestFileChunk(NextRequest(ev))])
  }

  /** A handler run: the new state, and whether it stopped with a TypeError. */
  datatype Outcome = Outcome(peer: Peer, faulted: bool)

  /** The record for `fileId` at index `k` with the final chunk pushed onto it. */
  function WithFinalChunk(D: seq<Download>, k: nat, chunk: string): seq<Download>
    requires k < |D|
  {
    D[k := D[k].(chunks := D[k].chunks + [chunk])]
  }

  /** What the received bytes reassemble to when a completing event arrives (absent if there is no record). */
  function Reassembled(p: Peer, ev: ChunkData): Option<string>
  {
    match PhaseOf(ev.currentChunk, ev.totalChunks)
    case Single => Some(Flatten([ev.chunk]))
    case Final =>
      (match FirstDownload(p.downloads, ev.fileId)
       case None => None
       case Some(k) => Some(Flatten(p.downloads[k].chunks + [ev.chunk])))
    case _ => None
  }

  /** The verifying upload-chunk handler (connection/index.ts). */
  function ReceiveVerified(p: Peer, ev: ChunkData, digest: string -> string): (r: Outcome)
    ensures |r.peer.listedFiles| == |p.listedFiles|
    ensures r.faulted <==> PhaseOf(ev.currentChunk, ev.totalChunks) == Final && FirstDownload(p.downloads, ev.fileId).None?
    ensures r.faulted || PhaseOf(ev.currentChunk, ev.totalChunks) == Ignored ==> r.peer == p
  {
    var fileId := ev.fileId;
    match PhaseOf(ev.currentChunk, ev.totalChunks)
    case Single =>
      var content := Flatten([ev.chunk]);
      if digest(content) != fileId then Outcome(Fail(p, fileId), false)
      else Outcome(p.(listedFiles := Completed(p.listedFiles, fileId),
                      outbox := p.outbox + [SaveFileOnDisk(content, ev.fileName)]), false)
    case First => Outcome(Begin(p, ev), false)
    case Middle => Outcome(Continue(p, ev), false)
    case Final =>
      (match FirstDownload(p.downloads, fileId)
       case None => Outcome(p, true)
       case Some(k) =>
         var D := WithFinalChunk(p.downloads, k, ev.chunk);
         var content := Flatten(D[k].chunks);
         if digest(content) != fileId then Outcome(Fail(p.(downloads := D), fileId), false)
         else Outcome(p.(listedFiles := Completed(p.listedFiles, fileId),
                         outbox := p.outbox + [SaveFileOnDisk(content, D[k].fileName)],
                         downloads := WithoutDownload(D, fileId)), false))
    case Ignored => Outcome(p, false)
  }

  /** The trusting upload-chunk handler (store/index.ts): no hash check. */
  function ReceiveTrusted(p: Peer, ev: ChunkData): (r: Outcome)
    ensures |r.peer.listedFiles| == |p.listedFiles|
    ensures r.faulted <==> PhaseOf(ev.currentChunk, ev.totalChunks) == Final && FirstDownload(p.downloads, ev.fileId).None?
    ensures r.faulted ==> r.peer == p.(listedFiles := Completed(p.listedFiles, ev.fileId))
    ensures PhaseOf(ev.currentChunk, ev.totalChunks) == Ignored ==> r.peer == p
  {
    var fileId := ev.fileId;
    match PhaseOf(ev.currentChunk, ev.totalChunks)
    case Single =>
      Outcome(p.(listedFiles := Completed(p.listedFiles, fileId),
                 outbox := p.outbox + [SaveFileOnDisk(Flatten([ev.chunk]), ev.fileName)]), false)
    case First => Outcome(Begin(p, ev), false)
    case Middle => Outcome(Continue(p, ev), false)
    case Final =>
      (match FirstDownload(p.downloads, fileId)
       case None => Outcome(p.(listedFiles := Completed(p.listedFiles, fileId)), true)
       case Some(k) =>
         var D := WithFinalChunk(p.downloads, k, ev.chunk);
         Outcome(p.(listedFiles := Completed(p.listedFiles, fileId),
                    outbox := p.outbox + [SaveFileOnDisk(Flatten(D[k].chunks), D[k].fileName)],
                    downloads := WithoutDownload(D, fileId)), false))
    case Ignored => Outcome(p, false)
  }

  /** The two variants differ only on completing events. */
  lemma VariantsAgreeUntilCompletion(p: Peer, ev: ChunkData, digest: string -> string)
    requires PhaseOf(ev.currentChunk, ev.totalChunks) in {First, Middle, Ignored}
    ensures ReceiveVerified(p, ev, digest) == ReceiveTrusted(p, ev)
  {
  }

  /** Chunk 1 of a t-chunk file (t > 1) opens one record holding that chunk, starts the overlay and asks for chunk 2. */
  lemma FirstChunkOpensRecord(p: Peer, ev: ChunkData)
    requires PhaseOf(ev.currentChunk, ev.totalChunks) == First
    ensures var q := ReceiveTrusted(p, ev).peer;
      && q.downloads == p.downloads + [Download([ev.chunk], false, ev.fileId, ev.fileName, ev.fileSize,
                                                ev.ownerId, ev.totalChunks, ev.fileType)]
      && q.outbox == p.outbox + [RequestFileChunk(ChunkRequest(2, ev.fileId, ev.ownerId, ev.targetId))]
      && q.downloadFileError == p.downloadFileError
      && (forall i :: 0 <= i < |p.listedFiles| && p.listedFiles[i].id == ev.fileId ==>
            q.listedFiles[i].isDownloading && !q.listedFiles[i].downloadCompleted
            && q.listedFiles[i].downloadPercent == Percent(1, ev.totalChunks)
            && 0 <= q.listedFiles[i].downloadPercent <= 100)
      && (forall i :: 0 <= i < |p.listedFiles| && p.listedFiles[i].id != ev.fileId ==>
            q.listedFiles[i] == p.listedFiles[i])
  {
    PercentInRange(1, ev.totalChunks);
  }

  /** A middle chunk extends the (only) record for the file and asks for the next chunk. */
  lemma MiddleChunkExtendsRecord(p: Peer, ev: ChunkData, rec: Download)
    requires PhaseOf(ev.currentChunk, ev.totalChunks) == Middle
    requires RecordsFor(p.downloads, ev.fileId) == [rec]
    ensures var q := ReceiveTrusted(p, ev).peer;
      && RecordsFor(q.downloads, ev.fileId) == [rec.(chunks := rec.chunks + [ev.chunk])]
      && q.outbox == p.outbox + [RequestFileChunk(ChunkRequest(ev.currentChunk + 1, ev.fileId, ev.ownerId, ev.targetId))]
      && q.downloadFileError == p.downloadFileError
      && (forall i :: 0 <= i < |p.listedFiles| && p.listedFiles[i].id == ev.fileId ==>
            q.listedFiles[i] == p.listedFiles[i].(downloadPercent := Percent(ev.currentChunk, ev.totalChunks))
            && 0 <= q.listedFiles[i].downloadPercent <= 100)
      && (forall i :: 0 <= i < |p.listedFiles| && p.listedFiles[i].id != ev.fileId ==>
            q.listedFiles[i] == p.listedFiles[i])
  {
    AppendToOnlyRecord(p.downloads, ev.fileId, ev.chunk, rec);
    PercentInRange(ev.currentChunk, ev.totalChunks);
  }

  /** A middle chunk is handled by `Continue`. */
  lemma MiddleIsContinue(p: Peer, ev: ChunkData)
    requires PhaseOf(ev.currentChunk, ev.totalChunks) == Middle
    ensures ReceiveTrusted(p, ev) == Outcome(Continue(p, ev), false)
  {
  }

  /** A final chunk with a record: the trusting handler completes the file, saves the record's chunks and drops the records. */
  lemma FinalCompletes(p: Peer, ev: ChunkData, k: nat)
    requires PhaseOf(ev.currentChunk, ev.totalChunks) == Final
    requires FirstDownload(p.downloads, ev.fileId) == Some(k)
    ensures var D := WithFinalChunk(p.downloads, k, ev.chunk);
      ReceiveTrusted(p, ev) == Outcome(p.(listedFiles := Completed(p.listedFiles, ev.fileId),
                                          outbox := p.outbox + [SaveFileOnDisk(Flatten(D[k].chunks), D[k].fileName)],
                                          downloads := WithoutDownload(D, ev.fileId)), false)
  {
  }

  /** A final chunk whose reassembled content fails the check runs `Fail` on the table with the chunk pushed. */
  lemma FinalMismatchFails(p: Peer, ev: ChunkData, digest: string -> string, k: nat)
    requires PhaseOf(ev.currentChunk, ev.totalChunks) == Final
    requires FirstDownload(p.downloads, ev.fileId) == Some(k)
    requires digest(Flatten(WithFinalChunk(p.downloads, k, ev.chunk)[k].chunks)) != ev.fileId
    ensures ReceiveVerified(p, ev, digest) == Outcome(Fail(p.(downloads := WithFinalChunk(p.downloads, k, ev.chunk)), ev.fileId), false)
  {
  }

  /** The entries for `fileId` are completed at 100 %, every other entry untouched. */
  predicate MarkedCompleted(before: seq<Entry>, after: seq<Entry>, fileId: string)
  {
    && |after| == |before|
    && (forall i :: 0 <= i < |before| && before[i].id == fileId ==>
          after[i] == before[i].(downloadCompleted := true, downloadPercent := 100, isDownloading := false))
    && (forall i :: 0 <= i < |before| && before[i].id != fileId ==> after[i] == before[i])
  }

  /** The entries for `fileId` have the overlay reset, every other entry untouched. */
  predicate MarkedFailed(before: seq<Entry>, after: seq<Entry>, fileId: string)
  {
    && |after| == |before|
    && (forall i :: 0 <= i < |before| && before[i].id == fileId ==>
          after[i] == before[i].(downloadCompleted := false, downloadPercent := 0, isDownloading := false))
    && (forall i :: 0 <= i < |before| && before[i].id != fileId ==> after[i] == before[i])
  }

  /** The recorded error names an entry for `fileId` with its overlay reset. */
  predicate ErrorNames(err: Option<DownloadError>, fileId: string)
  {
    err.Some? && err.value.errorText == DOWNLOAD_ERROR_TEXT && err.value.file.id == fileId && OverlayReset(err.value.file)
  }

  /**
   * Verifying variant, content matches: the file is saved, its entries are
   * completed and (for a multi-chunk file) no record for it remains.
   */
  lemma VerifiedCompletionAccepts(p: Peer, ev: ChunkData, digest: string -> string)
    requires Reassembled(p, ev).Some? && digest(Reassembled(p, ev).value) == ev.fileId
    ensures var r := ReceiveVerified(p, ev, digest);
      && !r.faulted
      && MarkedCompleted(p.listedFiles, r.peer.listedFiles, ev.fileId)
      && |r.peer.outbox| == |p.outbox| + 1 && r.peer.outbox[..|p.outbox|] == p.outbox
      && r.peer.outbox[|p.outbox|].SaveFileOnDisk? && r.peer.outbox[|p.outbox|].content == Reassembled(p, ev).value
      && r.peer.downloadFileError == p.downloadFileError
      && (PhaseOf(ev.currentChunk, ev.totalChunks) == Single ==> r.peer.downloads == p.downloads)
      && (PhaseOf(ev.currentChunk, ev.totalChunks) == Final ==> RecordsFor(r.peer.downloads, ev.fileId) == [])
  {
  }

  /**
   * Verifying variant, content differs: nothing is saved, no record for the
   * file remains, its overlay is reset and the error names one of its entries.
   */
  lemma VerifiedCompletionRejects(p: Peer, ev: ChunkData, digest: string -> string)
    requires Reassembled(p, ev).Some? && digest(Reassembled(p, ev).value) != ev.fileId
    ensures var r := ReceiveVerified(p, ev, digest);
      && !r.faulted
      && MarkedFailed(p.listedFiles, r.peer.listedFiles, ev.fileId)
      && r.peer.outbox == p.outbox
      && RecordsFor(r.peer.downloads, ev.fileId) == []
      && ((exists i :: 0 <= i < |p.listedFiles| && p.listedFiles[i].id == ev.fileId) ==> ErrorNames(r.peer.downloadFileError, ev.fileId))
      && ((forall i :: 0 <= i < |p.listedFiles| ==> p.listedFiles[i].id != ev.fileId) ==> r.peer.downloadFileError == p.downloadFileError)
  {
    if PhaseOf(ev.currentChunk, ev.totalChunks) == Single {
      FailResets(p, ev.fileId);
    } else {
      var k := FirstDownload(p.downloads, ev.fileId).value;
      FailResets(p.(downloads := WithFinalChunk(p.downloads, k, ev.chunk)), ev.fileId);
    }
  }

  /** After an integrity failure no record of the file remains, its entries are reset and the error names one of them. */
  lemma FailResets(p: Peer, fileId: string)
    ensures var q := Fail(p, fileId);
      && MarkedFailed(p.listedFiles, q.listedFiles, fileId)
      && q.outbox == p.outbox
      && RecordsFor(q.downloads, fileId) == []
      && ((exists i :: 0 <= i < |p.listedFiles| && p.listedFiles[i].id == fileId) ==> ErrorNames(q.downloadFileError, fileId))
      && ((forall i :: 0 <= i < |p.listedFiles| ==> p.listedFiles[i].id != fileId) ==> q.downloadFileError == p.downloadFileError)
  {
    FailReportsError(p.listedFiles, fileId, p.downloadFileError);
  }

  /** The error left by resetting the entries for `fileId`: one of them when there is one, otherwise the old error. */
  lemma FailReportsError(L0: seq<Entry>, fileId: string, prev: Option<DownloadError>)
    ensures var L := SetOverlay(L0, fileId, 0, false, false);
      && ((exists i :: 0 <= i < |L0| && L0[i].id == fileId) ==> ErrorNames(FailureError(L, fileId, prev), fileId))
      && ((forall i :: 0 <= i < |L0| ==> L0[i].id != fileId) ==> FailureError(L, fileId, prev) == prev)
  {
    var L := SetOverlay(L0, fileId, 0, false, false);
    FailureErrorIsLast(L, fileId, prev);
    if exists i :: 0 <= i < |L0| && L0[i].id == fileId {
      var i :| 0 <= i < |L0| && L0[i].id == fileId;
      assert L[i].id == fileId;
    }
  }

  /** Trusting variant: a completing event is always accepted, whatever the content. */
  lemma TrustedCompletionAccepts(p: Peer, ev: ChunkData)
    requires Reassembled(p, ev).Some?
    ensures var r := ReceiveTrusted(p, ev);
      && !r.faulted
      && MarkedCompleted(p.listedFiles, r.peer.listedFiles, ev.fileId)
      && |r.peer.outbox| == |p.outbox| + 1 && r.peer.outbox[..|p.outbox|] == p.outbox
      && r.peer.outbox[|p.outbox|].SaveFileOnDisk? && r.peer.outbox[|p.outbox|].content == Reassembled(p, ev).value
      && r.peer.downloadFileError == p.downloadFileError
      && (PhaseOf(ev.currentChunk, ev.totalChunks) == Single ==> r.peer.downloads == p.downloads)
      && (PhaseOf(ev.currentChunk, ev.totalChunks) == Final ==> RecordsFor(r.peer.downloads, ev.fileId) == [])
  {
  }

  /** Verifying and trusting handlers agree on every event whose content passes the check. */
  lemma VariantsAgreeWhenContentMatches(p: Peer, ev: ChunkData, digest: string -> string)
    requires Reassembled(p, ev).Some? && digest(Reassembled(p, ev).value) == ev.fileId
    ensures ReceiveVerified(p, ev, digest) == ReceiveTrusted(p, ev)
  {
  }

  lemma RecordsForAppend(a: seq<Download>, b: seq<Download>, fileId: string)
    ensures RecordsFor(a + b, fileId) == RecordsFor(a, fileId) + RecordsFor(b, fileId)
  {
    FilterAppend(a, b, (d: Download) => d.fileId == fileId);
  }

  /** Two tables that agree wherever either holds a record for `fileId` have the same records for it. */
  lemma {:induction false} RecordsForPointwise(D: seq<Download>, E: seq<Download>, fileId: string)
    requires |D| == |E|
    requires forall i :: 0 <= i < |D| && (D[i].fileId == fileId || E[i].fileId == fileId) ==> D[i] == E[i]
    ensures RecordsFor(D, fileId) == RecordsFor(E, fileId)
    decreases |D|
  {
    if D != [] {
      RecordsForPointwise(D[1..], E[1..], fileId);
      var p := (d: Download) => d.fileId == fileId;
      assert RecordsFor(D, fileId) == (if p(D[0]) then [D[0]] else []) + RecordsFor(D[1..], fileId);
      assert RecordsFor(E, fileId) == (if p(E[0]) then [E[0]] else []) + RecordsFor(E[1..], fileId);
    }
  }

  /** Appending a chunk for one file leaves the records of every other file as they were. */
  lemma AppendChunkKeepsOthers(D: seq<Download>, fileId: string, chunk: string, other: string)
    requires other != fileId
    ensures RecordsFor(AppendChunk(D, fileId, chunk), other) == RecordsFor(D, other)
  {
    RecordsForPointwise(AppendChunk(D, fileId, chunk), D, other);
  }

  /** When a table has no record for a file, appending to the file's records extends the one record added after it. */
  lemma AppendChunkToLast(D: seq<Download>, rec: Download, chunk: string)
    requires RecordsFor(D, rec.fileId) == []
    ensures AppendChunk(D + [rec], rec.fileId, chunk) == D + [rec.(chunks := rec.chunks + [chunk])]
  {
    var E := D + [rec];
    var A := AppendChunk(E, rec.fileId, chunk);
    forall i | 0 <= i < |D| ensures A[i] == D[i] {
      assert D[i] in D;
      assert E[i] == D[i];
    }
    assert E[|D|] == rec;
    assert A == D + [rec.(chunks := rec.chunks + [chunk])];
  }

  /** When a table has no record for a file, the lookup finds the record added after it. */
  lemma FirstDownloadOfLast(D: seq<Download>, rec: Download)
    requires RecordsFor(D, rec.fileId) == []
    ensures FirstDownload(D + [rec], rec.fileId) == Some(|D|)
  {
    forall i | 0 <= i < |D| ensures D[i].fileId != rec.fileId {
      assert D[i] in D;
    }
    assert (D + [rec])[|D|] == rec;
  }

  /** A new record for the file leaves the rest of the table as it was. */
  lemma OpenRecordKeepsRest(D: seq<Download>, rec: Download)
    ensures WithoutDownload(D + [rec], rec.fileId) == WithoutDownload(D, rec.fileId)
  {
    var keep := (d: Download) => d.fileId != rec.fileId;
    FilterAppend(D, [rec], keep);
    assert Filter([rec], keep) == [];
  }

  /** A table with no record for the file is its own rest; in particular dropping twice is dropping once. */
  lemma WithoutAbsent(D: seq<Download>, fileId: string)
    requires RecordsFor(D, fileId) == []
    ensures WithoutDownload(D, fileId) == D
  {
    forall i | 0 <= i < |D| ensures D[i].fileId != fileId {
      assert D[i] in D;
    }
    FilterAll(D, (d: Download) => d.fileId != fileId);
  }

  /** When `rec` is the only record for `fileId`, the destructuring lookup finds it. */
  lemma OnlyRecordFound(D: seq<Download>, fileId: string, rec: Download)
    requires RecordsFor(D, fileId) == [rec]
    ensures FirstDownload(D, fileId).Some? && D[FirstDownload(D, fileId).value] == rec
  {
    assert rec in RecordsFor(D, fileId);
    var k := FirstDownload(D, fileId).value;
    assert D[k] in RecordsFor(D, fileId);
  }

  /** The error after one more entry: that entry when it has the id, otherwise what it was before. */
  lemma FailureErrorSnoc(L: seq<Entry>, e: Entry, fileId: string, prev: Option<DownloadError>)
    ensures FailureError(L + [e], fileId, prev)
         == if e.id == fileId then Some(DownloadError(DOWNLOAD_ERROR_TEXT, e)) else FailureError(L, fileId, prev)
  {
    assert (L + [e])[..|L|] == L;
  }
}
