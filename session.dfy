/**
 * Whole downloads: the requester's state after chunks 1..k of an owner's
 * entry have arrived one by one, in the trusting and in the verifying
 * variant, and how the owner's replies produce exactly those arrivals.
 */
module Session {
  import opened Wrappers
  import opened Seqs
  import opened Protocol
  import opened Catalog
  import opened Transfer

  /** The requester's state after chunks 1..k of `e` arrived at the trusting handler. */
  function TrustedAfter(p: Peer, e: Entry, fileId: string, targetId: string, k: nat): Peer
    requires k <= |e.chunks|
    decreases k
  {
    if k == 0 then p
    else ReceiveTrusted(TrustedAfter(p, e, fileId, targetId, k - 1), Delivery(e, fileId, targetId, k)).peer
  }

  /** The requester's state after chunks 1..k of `e` arrived at the verifying handler. */
  function VerifiedAfter(p: Peer, e: Entry, fileId: string, targetId: string, k: nat, digest: string -> string): Peer
    requires k <= |e.chunks|
    decreases k
  {
    if k == 0 then p
    else ReceiveVerified(VerifiedAfter(p, e, fileId, targetId, k - 1, digest), Delivery(e, fileId, targetId, k), digest).peer
  }

  /** The chunk requests a requester sends while chunks 1..k arrive: one per chunk, for the chunk after it. */
  function Requests(fileId: string, ownerId: string, targetId: string, k: nat): seq<Effect>
  {
    if k == 0 then []
    else Requests(fileId, ownerId, targetId, k - 1) + [RequestFileChunk(ChunkRequest(k + 1, fileId, ownerId, targetId))]
  }

  /** Request j (from 0) asks for chunk j + 2 of the same file from the same owner. */
  lemma {:induction false} RequestsAskInOrder(fileId: string, ownerId: string, targetId: string, k: nat)
    ensures |Requests(fileId, ownerId, targetId, k)| == k
    ensures forall j :: 0 <= j < k ==>
      Requests(fileId, ownerId, targetId, k)[j] == RequestFileChunk(ChunkRequest(j + 2, fileId, ownerId, targetId))
  {
    if k > 0 {
      RequestsAskInOrder(fileId, ownerId, targetId, k - 1);
    }
  }

  /** The record a requester holds once chunks 1..k of `e` have arrived. */
  function Partial(e: Entry, fileId: string, k: nat): Download
    requires k <= |e.chunks|
  {
    Download(e.chunks[..k], false, fileId, e.fileName, e.fileSize, e.ownerId, |e.chunks|, e.fileType)
  }

  /**
   * The requester's state after chunks 1..k (k before the last) of `e`,
   * starting from `p` with no record for the file: one record, added after
   * `p`'s, holding the chunks so far; one request per chunk for the chunk
   * after it; the file shown downloading at the rounded progress of k.
   */
  function Prefix(p: Peer, e: Entry, fileId: string, targetId: string, k: nat): Peer
    requires 1 <= k < |e.chunks|
  {
    p.(listedFiles := SetOverlay(p.listedFiles, fileId, Percent(k, |e.chunks|), true, false),
       downloads := p.downloads + [Partial(e, fileId, k)],
       outbox := p.outbox + Requests(fileId, e.ownerId, targetId, k))
  }

  /** Before the last chunk the trusting handler has produced exactly `Prefix`. */
  lemma {:induction false} TrustedPrefix(p: Peer, e: Entry, fileId: string, targetId: string, k: nat)
    requires 1 <= k < |e.chunks|
    requires RecordsFor(p.downloads, fileId) == []
    ensures TrustedAfter(p, e, fileId, targetId, k) == Prefix(p, e, fileId, targetId, k)
  {
    if k == 1 {
      FirstStep(p, e, fileId, targetId);
    } else {
      TrustedPrefix(p, e, fileId, targetId, k - 1);
      MiddleStep(p, e, fileId, targetId, k);
    }
  }

  /** Chunk 1 of a multi-chunk file produces `Prefix` for k = 1. */
  lemma FirstStep(p: Peer, e: Entry, fileId: string, targetId: string)
    requires 1 < |e.chunks|
    requires RecordsFor(p.downloads, fileId) == []
    ensures ReceiveTrusted(p, Delivery(e, fileId, targetId, 1)).peer == Prefix(p, e, fileId, targetId, 1)
  {
    var ev := Delivery(e, fileId, targetId, 1);
    var q := ReceiveTrusted(p, ev).peer;
    var r := Prefix(p, e, fileId, targetId, 1);
    assert q == Begin(p, ev);
    assert e.chunks[..1] == [ev.chunk];
    assert q.downloads == r.downloads;
    assert Requests(fileId, e.ownerId, targetId, 0) == [];
    assert q.outbox == r.outbox;
  }

  /** A middle chunk carries `Prefix` from k - 1 to k. */
  lemma MiddleStep(p: Peer, e: Entry, fileId: string, targetId: string, k: nat)
    requires 1 < k < |e.chunks|
    requires RecordsFor(p.downloads, fileId) == []
    ensures ReceiveTrusted(Prefix(p, e, fileId, targetId, k - 1), Delivery(e, fileId, targetId, k)).peer
         == Prefix(p, e, fileId, targetId, k)
  {
    var t := |e.chunks|;
    var s := Prefix(p, e, fileId, targetId, k - 1);
    var ev := Delivery(e, fileId, targetId, k);
    var q := ReceiveTrusted(s, ev).peer;
    var r := Prefix(p, e, fileId, targetId, k);
    MiddleIsContinue(s, ev);
    assert q.downloads == r.downloads by {
      AppendChunkToLast(p.downloads, Partial(e, fileId, k - 1), e.chunks[k - 1]);
      TakeSnoc(e.chunks, k);
    }
    assert q.outbox == r.outbox;
    assert q.listedFiles == r.listedFiles by {
      PercentAfterOverlay(p.listedFiles, fileId, Percent(k - 1, t), true, false, Percent(k, t));
    }
  }

  /**
   * What a whole download leaves behind, starting from `p`: the same table
   * and error, every entry for the file completed, and one request per chunk
   * but the last followed by the save of the concatenated chunks under the
   * owner's file name.
   */
  function Downloaded(p: Peer, e: Entry, fileId: string, targetId: string): Peer
    requires |e.chunks| >= 1
  {
    p.(listedFiles := Completed(p.listedFiles, fileId),
       outbox := p.outbox + Requests(fileId, e.ownerId, targetId, |e.chunks| - 1)
                 + [SaveFileOnDisk(Flatten(e.chunks), e.fileName)])
  }

  /**
   * What a whole download whose content fails the check leaves behind: the
   * same table, the requests for every chunk but the last and no save, the
   * file's entries reset and the error recorded for the last of them.
   */
  function Rejected(p: Peer, e: Entry, fileId: string, targetId: string): Peer
    requires |e.chunks| >= 1
  {
    var L := SetOverlay(p.listedFiles, fileId, 0, false, false);
    p.(listedFiles := L,
       outbox := p.outbox + Requests(fileId, e.ownerId, targetId, |e.chunks| - 1),
       downloadFileError := FailureError(L, fileId, p.downloadFileError))
  }

  /**
   * The last chunk after all the others: it finds the record, which then
   * holds every chunk of the file, so the reassembled content is the whole
   * file.
   */
  lemma FinalChunkCompletesRecord(p: Peer, e: Entry, fileId: string, targetId: string)
    requires |e.chunks| >= 2
    requires RecordsFor(p.downloads, fileId) == []
    ensures FirstDownload(Prefix(p, e, fileId, targetId, |e.chunks| - 1).downloads, fileId) == Some(|p.downloads|)
    ensures WithFinalChunk(Prefix(p, e, fileId, targetId, |e.chunks| - 1).downloads, |p.downloads|, e.chunks[|e.chunks| - 1])
         == p.downloads + [Download(e.chunks, false, fileId, e.fileName, e.fileSize, e.ownerId, |e.chunks|, e.fileType)]
    ensures Reassembled(Prefix(p, e, fileId, targetId, |e.chunks| - 1), Delivery(e, fileId, targetId, |e.chunks|))
         == Some(Flatten(e.chunks))
  {
    var t := |e.chunks|;
    var rec := Partial(e, fileId, t - 1);
    FirstDownloadOfLast(p.downloads, rec);
    TakeSnoc(e.chunks, t);
    assert e.chunks[..t] == e.chunks;
    assert rec.(chunks := rec.chunks + [e.chunks[t - 1]])
        == Download(e.chunks, false, fileId, e.fileName, e.fileSize, e.ownerId, t, e.fileType);
  }

  /** The trusting handler on the last chunk, after all the others: never a fault, and `Downloaded` is reached. */
  lemma FinalStep(p: Peer, e: Entry, fileId: string, targetId: string)
    requires |e.chunks| >= 2
    requires RecordsFor(p.downloads, fileId) == []
    ensures ReceiveTrusted(Prefix(p, e, fileId, targetId, |e.chunks| - 1), Delivery(e, fileId, targetId, |e.chunks|))
         == Outcome(Downloaded(p, e, fileId, targetId), false)
  {
    var t := |e.chunks|;
    var s := Prefix(p, e, fileId, targetId, t - 1);
    var ev := Delivery(e, fileId, targetId, t);
    var rec := Download(e.chunks, false, fileId, e.fileName, e.fileSize, e.ownerId, t, e.fileType);
    FinalChunkCompletesRecord(p, e, fileId, targetId);
    FinalCompletes(s, ev, |p.downloads|);
    var q := ReceiveTrusted(s, ev).peer;
    var d := Downloaded(p, e, fileId, targetId);
    assert q.downloads == d.downloads by {
      assert q.downloads == WithoutDownload(p.downloads + [rec], fileId);
      OpenRecordKeepsRest(p.downloads, rec);
      WithoutAbsent(p.downloads, fileId);
    }
    assert q.outbox == d.outbox;
    assert q.listedFiles == d.listedFiles by {
      OverlayLastWins(p.listedFiles, fileId, Percent(t - 1, t), true, false, 100, false, true);
    }
  }

  /** The verifying handler on the last chunk, after all the others, when the content fails the check: `Rejected` is reached. */
  lemma FinalRejects(p: Peer, e: Entry, fileId: string, targetId: string, digest: string -> string)
    requires |e.chunks| >= 2
    requires RecordsFor(p.downloads, fileId) == []
    requires digest(Flatten(e.chunks)) != fileId
    ensures ReceiveVerified(Prefix(p, e, fileId, targetId, |e.chunks| - 1), Delivery(e, fileId, targetId, |e.chunks|), digest).peer
         == Rejected(p, e, fileId, targetId)
  {
    var t := |e.chunks|;
    var s := Prefix(p, e, fileId, targetId, t - 1);
    var ev := Delivery(e, fileId, targetId, t);
    var rec := Download(e.chunks, false, fileId, e.fileName, e.fileSize, e.ownerId, t, e.fileType);
    FinalChunkCompletesRecord(p, e, fileId, targetId);
    FinalMismatchFails(s, ev, digest, |p.downloads|);
    var q := ReceiveVerified(s, ev, digest).peer;
    var r := Rejected(p, e, fileId, targetId);
    assert q == Fail(s.(downloads := p.downloads + [rec]), fileId);
    assert q.downloads == r.downloads by {
      OpenRecordKeepsRest(p.downloads, rec);
      WithoutAbsent(p.downloads, fileId);
    }
    assert q.listedFiles == r.listedFiles by {
      OverlayLastWins(p.listedFiles, fileId, Percent(t - 1, t), true, false, 0, false, false);
    }
  }

  /** The verifying handler on the last chunk, after all the others, when the content passes the check: `Downloaded` is reached. */
  lemma FinalAccepts(p: Peer, e: Entry, fileId: string, targetId: string, digest: string -> string)
    requires |e.chunks| >= 2
    requires RecordsFor(p.downloads, fileId) == []
    requires digest(Flatten(e.chunks)) == fileId
    ensures ReceiveVerified(Prefix(p, e, fileId, targetId, |e.chunks| - 1), Delivery(e, fileId, targetId, |e.chunks|), digest).peer
         == Downloaded(p, e, fileId, targetId)
  {
    var s := Prefix(p, e, fileId, targetId, |e.chunks| - 1);
    FinalChunkCompletesRecord(p, e, fileId, targetId);
    FinalStep(p, e, fileId, targetId);
    VariantsAgreeWhenContentMatches(s, Delivery(e, fileId, targetId, |e.chunks|), digest);
  }

  /**
   * A whole download through the trusting handler, starting with no record
   * for the file: the last chunk is never a fault, and the requester ends
   * in the `Downloaded` state, its download table back as it was.
   */
  lemma TrustedComplete(p: Peer, e: Entry, fileId: string, targetId: string)
    requires |e.chunks| >= 1
    requires RecordsFor(p.downloads, fileId) == []
    ensures !ReceiveTrusted(TrustedAfter(p, e, fileId, targetId, |e.chunks| - 1), Delivery(e, fileId, targetId, |e.chunks|)).faulted
    ensures TrustedAfter(p, e, fileId, targetId, |e.chunks|) == Downloaded(p, e, fileId, targetId)
  {
    TrustedLastChunk(p, e, fileId, targetId);
  }

  /** The trusting handler on the last chunk of a whole download. */
  lemma TrustedLastChunk(p: Peer, e: Entry, fileId: string, targetId: string)
    requires |e.chunks| >= 1
    requires RecordsFor(p.downloads, fileId) == []
    ensures ReceiveTrusted(TrustedAfter(p, e, fileId, targetId, |e.chunks| - 1), Delivery(e, fileId, targetId, |e.chunks|))
         == Outcome(Downloaded(p, e, fileId, targetId), false)
  {
    if |e.chunks| == 1 {
      assert TrustedAfter(p, e, fileId, targetId, 0) == p;
      SingleCompletes(p, e, fileId, targetId);
    } else {
      MultiLastChunk(p, e, fileId, targetId);
    }
  }

  lemma MultiLastChunk(p: Peer, e: Entry, fileId: string, targetId: string)
    requires |e.chunks| >= 2
    requires RecordsFor(p.downloads, fileId) == []
    ensures ReceiveTrusted(TrustedAfter(p, e, fileId, targetId, |e.chunks| - 1), Delivery(e, fileId, targetId, |e.chunks|))
         == Outcome(Downloaded(p, e, fileId, targetId), false)
  {
    TrustedPrefix(p, e, fileId, targetId, |e.chunks| - 1);
    FinalStep(p, e, fileId, targetId);
  }

  /** A one-chunk file: saved on arrival, with nothing requested. */
  lemma SingleCompletes(p: Peer, e: Entry, fileId: string, targetId: string)
    requires |e.chunks| == 1
    ensures ReceiveTrusted(p, Delivery(e, fileId, targetId, 1)) == Outcome(Downloaded(p, e, fileId, targetId), false)
  {
    var ev := Delivery(e, fileId, targetId, 1);
    assert e.chunks == [ev.chunk];
    assert Requests(fileId, e.ownerId, targetId, 0) == [];
  }

  /** Before the last chunk the verifying handler has done exactly what the trusting one does. */
  lemma {:induction false} VerifiedPrefixAgrees(p: Peer, e: Entry, fileId: string, targetId: string, k: nat,
                                                digest: string -> string)
    requires k < |e.chunks|
    ensures VerifiedAfter(p, e, fileId, targetId, k, digest) == TrustedAfter(p, e, fileId, targetId, k)
  {
    if k > 0 {
      VerifiedPrefixAgrees(p, e, fileId, targetId, k - 1, digest);
      VariantsAgreeUntilCompletion(TrustedAfter(p, e, fileId, targetId, k - 1), Delivery(e, fileId, targetId, k), digest);
    }
  }

  /** When the concatenated chunks hash to the file id, the verifying handler completes the download like the trusting one. */
  lemma VerifiedAccepts(p: Peer, e: Entry, fileId: string, targetId: string, digest: string -> string)
    requires |e.chunks| >= 1
    requires RecordsFor(p.downloads, fileId) == []
    requires digest(Flatten(e.chunks)) == fileId
    ensures VerifiedAfter(p, e, fileId, targetId, |e.chunks|, digest) == Downloaded(p, e, fileId, targetId)
  {
    if |e.chunks| == 1 {
      SingleAccepts(p, e, fileId, targetId, digest);
    } else {
      VerifiedPrefixAgrees(p, e, fileId, targetId, |e.chunks| - 1, digest);
      TrustedPrefix(p, e, fileId, targetId, |e.chunks| - 1);
      FinalAccepts(p, e, fileId, targetId, digest);
    }
  }

  /** A one-chunk file whose content passes the check. */
  lemma SingleAccepts(p: Peer, e: Entry, fileId: string, targetId: string, digest: string -> string)
    requires |e.chunks| == 1
    requires digest(Flatten(e.chunks)) == fileId
    ensures VerifiedAfter(p, e, fileId, targetId, 1, digest) == Downloaded(p, e, fileId, targetId)
  {
    var ev := Delivery(e, fileId, targetId, 1);
    assert e.chunks == [ev.chunk];
    assert VerifiedAfter(p, e, fileId, targetId, 0, digest) == p;
    SingleCompletes(p, e, fileId, targetId);
    VariantsAgreeWhenContentMatches(p, ev, digest);
  }

  /**
   * When the concatenated chunks do not hash to the file id, the verifying
   * handler ends in the `Rejected` state: nothing saved, no record kept, the
   * entries reset and the error recorded.
   */
  lemma VerifiedRejects(p: Peer, e: Entry, fileId: string, targetId: string, digest: string -> string)
    requires |e.chunks| >= 1
    requires RecordsFor(p.downloads, fileId) == []
    requires digest(Flatten(e.chunks)) != fileId
    ensures VerifiedAfter(p, e, fileId, targetId, |e.chunks|, digest) == Rejected(p, e, fileId, targetId)
  {
    if |e.chunks| == 1 {
      SingleRejects(p, e, fileId, targetId, digest);
    } else {
      VerifiedPrefixAgrees(p, e, fileId, targetId, |e.chunks| - 1, digest);
      TrustedPrefix(p, e, fileId, targetId, |e.chunks| - 1);
      FinalRejects(p, e, fileId, targetId, digest);
    }
  }

  /** A one-chunk file whose content fails the check. */
  lemma SingleRejects(p: Peer, e: Entry, fileId: string, targetId: string, digest: string -> string)
    requires |e.chunks| == 1
    requires RecordsFor(p.downloads, fileId) == []
    requires digest(Flatten(e.chunks)) != fileId
    ensures VerifiedAfter(p, e, fileId, targetId, 1, digest) == Rejected(p, e, fileId, targetId)
  {
    var ev := Delivery(e, fileId, targetId, 1);
    assert e.chunks == [ev.chunk];
    assert VerifiedAfter(p, e, fileId, targetId, 0, digest) == p;
    WithoutAbsent(p.downloads, fileId);
    assert Requests(fileId, e.ownerId, targetId, 0) == [];
  }

  /**
   * A record left over from an earlier, abandoned fetch of the same file is
   * the one the final chunk completes: the save holds the old record's chunks
   * followed by the new last chunk, and unless the old chunks join to the new
   * first chunk that is not the file's content.
   */
  lemma StaleRecordIsSaved(p: Peer, e: Entry, fileId: string, targetId: string, stale: Download)
    requires |e.chunks| == 2 && p.downloads == [stale] && stale.fileId == fileId
    ensures TrustedAfter(p, e, fileId, targetId, 2).outbox
         == p.outbox + [RequestFileChunk(ChunkRequest(2, fileId, e.ownerId, targetId)),
                        SaveFileOnDisk(Flatten(stale.chunks) + e.chunks[1], stale.fileName)]
    ensures Flatten(stale.chunks) != e.chunks[0] ==> Flatten(stale.chunks) + e.chunks[1] != Flatten(e.chunks)
  {
    var q := TrustedAfter(p, e, fileId, targetId, 1);
    var started := Download([e.chunks[0]], false, fileId, e.fileName, e.fileSize, e.ownerId, 2, e.fileType);
    assert q.downloads == [stale, started];
    assert q.outbox == p.outbox + [RequestFileChunk(ChunkRequest(2, fileId, e.ownerId, targetId))];
    assert FirstDownload(q.downloads, fileId) == Some(0);
    FlattenAppend(stale.chunks, [e.chunks[1]]);
    FlattenSingle(e.chunks[1]);
    assert e.chunks == [e.chunks[0]] + [e.chunks[1]];
    FlattenAppend([e.chunks[0]], [e.chunks[1]]);
    FlattenSingle(e.chunks[0]);
    var prior := Flatten(stale.chunks);
    if prior + e.chunks[1] == e.chunks[0] + e.chunks[1] {
      assert |prior| == |e.chunks[0]|;
      assert prior == (prior + e.chunks[1])[..|prior|];
      assert e.chunks[0] == (e.chunks[0] + e.chunks[1])[..|prior|];
    }
  }

  /**
   * The owner side produces exactly the arrivals the requester folds over:
   * an owner whose first entry with the id is its own answers the
   * download request with chunk 1, and each chunk request the requester
   * sends before the last chunk with the chunk it asks for.
   */
  lemma OwnerAnswersRequests(O: seq<Entry>, i: nat, fileId: string, targetId: string)
    requires FirstWithId(O, fileId) == Some(i) && O[i].isOwner && |O[i].chunks| >= 1
    ensures var e := O[i];
      && DownloadReply(O, fileId, targetId) == [UploadOf(e, 1, fileId, targetId)]
      && Received(UploadOf(e, 1, fileId, targetId)) == Some(Delivery(e, fileId, targetId, 1))
      && forall c :: 2 <= c <= |e.chunks| ==>
           && ChunkReply(O, ChunkRequest(c, fileId, e.ownerId, targetId)) == [UploadOf(e, c, fileId, targetId)]
           && Received(UploadOf(e, c, fileId, targetId)) == Some(Delivery(e, fileId, targetId, c))
  {
    var e := O[i];
    OwnerServesFirstChunk(O, fileId, targetId, i);
    forall c | 2 <= c <= |e.chunks|
      ensures && ChunkReply(O, ChunkRequest(c, fileId, e.ownerId, targetId)) == [UploadOf(e, c, fileId, targetId)]
              && Received(UploadOf(e, c, fileId, targetId)) == Some(Delivery(e, fileId, targetId, c))
    {
      OwnerServesChunk(O, ChunkRequest(c, fileId, e.ownerId, targetId), i);
    }
  }
}
