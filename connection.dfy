/**
 * The socket handlers of connection/index.ts, acting on the shared store.
 * All but the upload-chunk handler are the store's handlers over again and
 * run them; the upload-chunk handler here checks the reassembled content
 * against the file id before saving it.
 */
module Connection {
  import opened Wrappers
  import opened Seqs
  import opened Protocol
  import opened Catalog
  import opened Transfer
  import Store

  method ChangePassword(store: Store.State, fileId: Option<string>, ownerId: Option<string>)
    modifies store`listedFiles
    ensures store.listedFiles == SetPassword(old(store.listedFiles), fileId.GetOr(""), ownerId.GetOr(""), true)
  {
    store.ChangePassword(fileId, ownerId);
  }

  method ClientDisconnect(store: Store.State, id: Option<string>)
    modifies store`listedFiles
    ensures id.None? ==> store.listedFiles == old(store.listedFiles)
    ensures id.Some? ==> store.listedFiles == WithoutOwner(old(store.listedFiles), id.value)
  {
    store.ClientDisconnect(id);
  }

  method DeleteAllFiles(store: Store.State, ownerId: Option<string>)
    modifies store`listedFiles
    ensures store.listedFiles == WithoutOwner(old(store.listedFiles), ownerId.GetOr(""))
  {
    store.DeleteAllFiles(ownerId);
  }

  method DeleteFile(store: Store.State, fileId: Option<string>)
    modifies store`listedFiles
    ensures store.listedFiles == WithoutFile(old(store.listedFiles), fileId.GetOr(""))
  {
    store.DeleteFile(fileId);
  }

  method DownloadFile(store: Store.State, fileId: Option<string>, targetId: Option<string>) returns (sent: bool)
    modifies store`outbox
    ensures store.outbox == old(store.outbox) + DownloadReply(store.listedFiles, fileId.GetOr(""), targetId.GetOr(""))
    ensures sent <==> DownloadReply(store.listedFiles, fileId.GetOr(""), targetId.GetOr("")) != []
  {
    sent := store.DownloadFile(fileId, targetId);
  }

  method ListFile(store: Store.State, data: Entry)
    modifies store`listedFiles
    ensures store.listedFiles == old(store.listedFiles) + [Mirror(data)]
  {
    store.ListFile(data);
  }

  method RemoveFilePassword(store: Store.State, fileId: Option<string>, ownerId: Option<string>)
    modifies store`listedFiles
    ensures store.listedFiles == SetPassword(old(store.listedFiles), fileId.GetOr(""), ownerId.GetOr(""), false)
  {
    store.RemoveFilePassword(fileId, ownerId);
  }

  method RequestFileChunk(store: Store.State, req: ChunkRequest) returns (sent: bool)
    modifies store`outbox
    ensures store.outbox == old(store.outbox) + ChunkReply(store.listedFiles, req)
    ensures sent <==> ChunkReply(store.listedFiles, req) != []
  {
    sent := store.RequestFileChunk(req);
  }

  method RequestListedFiles(store: Store.State, payload: Option<seq<Entry>>)
    modifies store`listedFiles
    ensures store.listedFiles == ListBatch(old(store.listedFiles), payload)
  {
    store.RequestListedFiles(payload);
  }

  method UpdateDeviceName(store: Store.State, newDeviceName: Option<string>, ownerId: Option<string>)
    modifies store`listedFiles
    ensures store.listedFiles == RenameDevice(old(store.listedFiles), ownerId.GetOr(""), newDeviceName.GetOr(""))
  {
    store.UpdateDeviceName(newDeviceName, ownerId);
  }

  method UpdateTotalDownloads(store: Store.State, fileId: Option<string>, totalDownloads: Option<int>)
    modifies store`listedFiles
    ensures store.listedFiles == SetTotalDownloads(old(store.listedFiles), fileId.GetOr(""), totalDownloads.GetOr(0))
  {
    store.UpdateTotalDownloads(fileId, totalDownloads);
  }

  /**
   * The `forEach` of an integrity failure, on the catalog it walks: each
   * entry with the id has its overlay reset and, in the same step, becomes
   * the recorded error, so the last such entry is the one left in `err`.
   */
  method ResetEntries(L0: seq<Entry>, fileId: string, prev: Option<DownloadError>)
    returns (L: seq<Entry>, err: Option<DownloadError>)
    ensures L == SetOverlay(L0, fileId, 0, false, false)
    ensures err == FailureError(L, fileId, prev)
  {
    ghost var target := SetOverlay(L0, fileId, 0, false, false);
    L, err := L0, prev;
    var i := 0;
    while i < |L|
      invariant 0 <= i <= |L| == |target| == |L0|
      invariant L == target[..i] + L0[i..]
      invariant err == FailureError(target[..i], fileId, prev)
    {
      ReportStep(target, i, fileId, prev);
      RewriteStep(target, L0, i);
      assert L[i] == L0[i];
      if L[i].id == fileId {
        var item := L[i].(downloadCompleted := false, downloadPercent := 0, isDownloading := false);
        assert item == target[i];
        L := L[i := item];
        err := Some(DownloadError(DOWNLOAD_ERROR_TEXT, item));
      } else {
        assert L[i] == target[i];
        assert L[i := target[i]] == L;
      }
      i := i + 1;
    }
    assert target[..i] == target;
    assert L0[i..] == [];
  }

  /** Writing the new value at the boundary of a half-rewritten sequence moves the boundary one place. */
  lemma RewriteStep<T>(target: seq<T>, src: seq<T>, i: nat)
    requires |target| == |src| && i < |src|
    ensures (target[..i] + src[i..])[i := target[i]] == target[..i + 1] + src[i + 1..]
  {
  }

  /** An integrity failure on the store: its catalog and error as `ResetEntries` leaves them. */
  method ReportMismatch(store: Store.State, fileId: string)
    modifies store`listedFiles, store`downloadFileError
    ensures store.listedFiles == SetOverlay(old(store.listedFiles), fileId, 0, false, false)
    ensures store.downloadFileError == FailureError(store.listedFiles, fileId, old(store.downloadFileError))
  {
    store.listedFiles, store.downloadFileError := ResetEntries(store.listedFiles, fileId, store.downloadFileError);
  }

  lemma ReportStep(target: seq<Entry>, i: nat, fileId: string, prev: Option<DownloadError>)
    requires i < |target|
    ensures target[i].id == fileId ==>
      FailureError(target[..i + 1], fileId, prev) == Some(DownloadError(DOWNLOAD_ERROR_TEXT, target[i]))
    ensures target[i].id != fileId ==> FailureError(target[..i + 1], fileId, prev) == FailureError(target[..i], fileId, prev)
  {
    FailureErrorSnoc(target[..i], target[i], fileId, prev);
    assert target[..i + 1] == target[..i] + [target[i]];
  }

  /**
   * Verifying `upload-file-chunk`: a completing chunk is saved only when the
   * hash of the reassembled content equals the file id; otherwise the record
   * is dropped, the overlay reset and the error recorded. `faulted` is the
   * TypeError of a final chunk with no record, raised before any change.
   */
  method UploadFileChunk(store: Store.State, ev: ChunkData, digest: string -> string) returns (faulted: bool)
    modifies store`listedFiles, store`downloads, store`outbox, store`downloadFileError
    ensures store.Snapshot() == ReceiveVerified(old(store.Snapshot()), ev, digest).peer
    ensures faulted == ReceiveVerified(old(store.Snapshot()), ev, digest).faulted
  {
    var c, t, fileId := ev.currentChunk, ev.totalChunks, ev.fileId;
    if c == 1 && t == 1 {
      var content := Flatten([ev.chunk]);
      if digest(content) != fileId {
        store.downloads := WithoutDownload(store.downloads, fileId);
        ReportMismatch(store, fileId);
        return false;
      }
      store.MarkOverlay(fileId, 100, false, true);
      store.outbox := store.outbox + [SaveFileOnDisk(content, ev.fileName)];
      return false;
    }
    if c == 1 && t > 1 {
      store.MarkOverlay(fileId, Percent(c, t), true, false);
      store.downloads := store.downloads + [Download([ev.chunk], c == t, fileId, ev.fileName, ev.fileSize,
                                                     ev.ownerId, t, ev.fileType)];
      store.outbox := store.outbox + [Effect.RequestFileChunk(ChunkRequest(c + 1, fileId, ev.ownerId, ev.targetId))];
      return false;
    }
    if c > 1 && c < t {
      store.AppendToRecords(fileId, ev.chunk);
      store.MarkPercent(fileId, Percent(c, t));
      store.outbox := store.outbox + [Effect.RequestFileChunk(ChunkRequest(c + 1, fileId, ev.ownerId, ev.targetId))];
      return false;
    }
    if c == t {
      var found := FirstDownload(store.downloads, fileId);
      if found.None? {
        return true;
      }
      var k := found.value;
      store.downloads := store.downloads[k := store.downloads[k].(chunks := store.downloads[k].chunks + [ev.chunk])];
      var content := Flatten(store.downloads[k].chunks);
      if digest(content) != fileId {
        store.downloads := WithoutDownload(store.downloads, fileId);
        ReportMismatch(store, fileId);
        return false;
      }
      store.MarkOverlay(fileId, 100, false, true);
      store.outbox := store.outbox + [SaveFileOnDisk(content, store.downloads[k].fileName)];
      store.downloads := WithoutDownload(store.downloads, fileId);
    }
    return false;
  }
}
