/**
 * The peer's shared reactive state (store/index.ts) and the event handlers
 * of its trusting variant, as a class whose methods update the state in
 * place. Each handler is proved to leave the state equal to the catalog or
 * transfer function of the old state; the `forEach` walks over the lists are
 * the loops of the helper methods.
 */
module Store {
  import opened Wrappers
  import opened Seqs
  import opened Protocol
  import opened Catalog
  import opened Transfer

  class State {
    /** Whether the socket handlers are installed. */
    var connected: bool
    /** The catalog: own entries and mirrors of other peers' entries. */
    var listedFiles: seq<Entry>
    /** The files being fetched. */
    var downloads: seq<Download>
    /** The last integrity failure, once one happened. */
    var downloadFileError: Option<DownloadError>
    /** Events emitted on the socket and files handed to the saver, in order. */
    var outbox: seq<Effect>

    /** The part of the state the transfer functions describe. */
    function Snapshot(): (p: Peer)
      reads this
      ensures p.listedFiles == listedFiles && p.downloads == downloads
      ensures p.downloadFileError == downloadFileError && p.outbox == outbox
    {
      Peer(listedFiles, downloads, downloadFileError, outbox)
    }

    /** The initial state: not connected, nothing listed, nothing being fetched. */
    constructor ()
      ensures !connected && listedFiles == [] && downloads == []
      ensures downloadFileError.None? && outbox == []
    {
      connected := false;
      listedFiles := [];
      downloads := [];
      downloadFileError := None;
      outbox := [];
    }

    /** The `forEach` that sets `withPassword` on the entries keyed by (`fileId`, `ownerId`). */
    method MarkPassword(fileId: string, ownerId: string, flag: bool)
      modifies this`listedFiles
      ensures listedFiles == SetPassword(old(listedFiles), fileId, ownerId, flag)
    {
      ghost var target := SetPassword(listedFiles, fileId, ownerId, flag);
      var i := 0;
      while i < |listedFiles|
        invariant 0 <= i <= |listedFiles| == |target|
        invariant forall j :: 0 <= j < i ==> listedFiles[j] == target[j]
        invariant forall j :: i <= j < |listedFiles| ==> listedFiles[j] == old(listedFiles)[j]
      {
        if Keyed(listedFiles[i], fileId, ownerId) {
          listedFiles := listedFiles[i := listedFiles[i].(withPassword := flag)];
        }
        i := i + 1;
      }
    }

    /** `change-password`: the owner protected one of its files. */
    method ChangePassword(fileId: Option<string>, ownerId: Option<string>)
      modifies this`listedFiles
      ensures listedFiles == SetPassword(old(listedFiles), fileId.GetOr(""), ownerId.GetOr(""), true)
    {
      MarkPassword(fileId.GetOr(""), ownerId.GetOr(""), true);
    }

    /** `remove-password`: the owner removed the protection again. */
    method RemoveFilePassword(fileId: Option<string>, ownerId: Option<string>)
      modifies this`listedFiles
      ensures listedFiles == SetPassword(old(listedFiles), fileId.GetOr(""), ownerId.GetOr(""), false)
    {
      MarkPassword(fileId.GetOr(""), ownerId.GetOr(""), false);
    }

    /**
     * `client-disconnect`: the entries of the gone peer disappear. A payload
     * without `id` compares every owner with `undefined` and keeps them all.
     */
    method ClientDisconnect(id: Option<string>)
      modifies this`listedFiles
      ensures id.None? ==> listedFiles == old(listedFiles)
      ensures id.Some? ==> listedFiles == WithoutOwner(old(listedFiles), id.value)
    {
      if id.Some? {
        listedFiles := WithoutOwner(listedFiles, id.value);
      }
    }

    /** `delete-all-files`: the owner withdrew everything it listed. */
    method DeleteAllFiles(ownerId: Option<string>)
      modifies this`listedFiles
      ensures listedFiles == WithoutOwner(old(listedFiles), ownerId.GetOr(""))
    {
      listedFiles := WithoutOwner(listedFiles, ownerId.GetOr(""));
    }

    /** `delete-file`: every entry with the content id disappears, whoever lists it. */
    method DeleteFile(fileId: Option<string>)
      modifies this`listedFiles
      ensures listedFiles == WithoutFile(old(listedFiles), fileId.GetOr(""))
    {
      listedFiles := WithoutFile(listedFiles, fileId.GetOr(""));
    }

    /**
     * `download-file` at the owner: chunk 1 of the first owned entry with the
     * id is emitted to the requester; `sent` is false (the `null` return) when
     * there is none.
     */
    method DownloadFile(fileId: Option<string>, targetId: Option<string>) returns (sent: bool)
      modifies this`outbox
      ensures outbox == old(outbox) + DownloadReply(listedFiles, fileId.GetOr(""), targetId.GetOr(""))
      ensures sent <==> DownloadReply(listedFiles, fileId.GetOr(""), targetId.GetOr("")) != []
    {
      var id, target := fileId.GetOr(""), targetId.GetOr("");
      var found := FirstOwned(listedFiles, id);
      if found.None? {
        return false;
      }
      outbox := outbox + [UploadOf(listedFiles[found.value], 1, id, target)];
      return true;
    }

    /** `list-file`: another peer listed a file; it is appended as a mirror. */
    method ListFile(data: Entry)
      modifies this`listedFiles
      ensures listedFiles == old(listedFiles) + [Mirror(data)]
    {
      listedFiles := listedFiles + [Mirror(data)];
    }

    /**
     * `request-file-chunk` at the owner: chunk `chunkIndex` of the first
     * entry with the id is emitted; `sent` is false when there is none.
     */
    method RequestFileChunk(req: ChunkRequest) returns (sent: bool)
      modifies this`outbox
      ensures outbox == old(outbox) + ChunkReply(listedFiles, req)
      ensures sent <==> ChunkReply(listedFiles, req) != []
    {
      var found := FirstWithId(listedFiles, req.fileId);
      if found.None? {
        return false;
      }
      var e := listedFiles[found.value];
      outbox := outbox + [Effect.UploadFileChunk(ChunkAt(e.chunks, req.chunkIndex - 1), req.chunkIndex, req.fileId,
                                          e.fileName, e.fileSize, e.ownerId, req.targetId, |e.chunks|, e.fileType)];
      return true;
    }

    /**
     * `request-listed-files` reply: the relay's snapshot, pushed entry by
     * entry as mirrors. `None` stands for a payload that is not an array.
     */
    method RequestListedFiles(payload: Option<seq<Entry>>)
      modifies this`listedFiles
      ensures listedFiles == ListBatch(old(listedFiles), payload)
    {
      if payload.Some? && |payload.value| > 0 {
        var batch := payload.value;
        var i := 0;
        while i < |batch|
          invariant 0 <= i <= |batch|
          invariant |listedFiles| == |old(listedFiles)| + i
          invariant listedFiles[..|old(listedFiles)|] == old(listedFiles)
          invariant forall j :: 0 <= j < i ==> listedFiles[|old(listedFiles)| + j] == Mirror(batch[j])
        {
          listedFiles := listedFiles + [Mirror(batch[i])];
          i := i + 1;
        }
        ghost var want := ListBatch(old(listedFiles), payload);
        assert forall j :: 0 <= j < |want| ==> listedFiles[j] == want[j] by {
          forall j | 0 <= j < |want| ensures listedFiles[j] == want[j] {
            if j < |old(listedFiles)| {
              assert listedFiles[j] == listedFiles[..|old(listedFiles)|][j];
            }
          }
        }
      }
    }

    /** `update-device-name`: every entry of the owner shows its new device name. */
    method UpdateDeviceName(newDeviceName: Option<string>, ownerId: Option<string>)
      modifies this`listedFiles
      ensures listedFiles == RenameDevice(old(listedFiles), ownerId.GetOr(""), newDeviceName.GetOr(""))
    {
      var owner, name := ownerId.GetOr(""), newDeviceName.GetOr("");
      ghost var target := RenameDevice(listedFiles, owner, name);
      var i := 0;
      while i < |listedFiles|
        invariant 0 <= i <= |listedFiles| == |target|
        invariant forall j :: 0 <= j < i ==> listedFiles[j] == target[j]
        invariant forall j :: i <= j < |listedFiles| ==> listedFiles[j] == old(listedFiles)[j]
      {
        if listedFiles[i].ownerId == owner {
          listedFiles := listedFiles[i := listedFiles[i].(deviceName := name)];
        }
        i := i + 1;
      }
    }

    /** `update-total-downloads`: every entry with the content id shows the new count. */
    method UpdateTotalDownloads(fileId: Option<string>, totalDownloads: Option<int>)
      modifies this`listedFiles
      ensures listedFiles == SetTotalDownloads(old(listedFiles), fileId.GetOr(""), totalDownloads.GetOr(0))
    {
      var id, n := fileId.GetOr(""), totalDownloads.GetOr(0);
      ghost var target := SetTotalDownloads(listedFiles, id, n);
      var i := 0;
      while i < |listedFiles|
        invariant 0 <= i <= |listedFiles| == |target|
        invariant forall j :: 0 <= j < i ==> listedFiles[j] == target[j]
        invariant forall j :: i <= j < |listedFiles| ==> listedFiles[j] == old(listedFiles)[j]
      {
        if listedFiles[i].id == id {
          listedFiles := listedFiles[i := listedFiles[i].(totalDownloads := n)];
        }
        i := i + 1;
      }
    }

    /** The `forEach` that sets the whole download overlay of the entries with the content id. */
    method MarkOverlay(fileId: string, percent: int, downloading: bool, completed: bool)
      modifies this`listedFiles
      ensures listedFiles == SetOverlay(old(listedFiles), fileId, percent, downloading, completed)
    {
      ghost var target := SetOverlay(listedFiles, fileId, percent, downloading, completed);
      var i := 0;
      while i < |listedFiles|
        invariant 0 <= i <= |listedFiles| == |target|
        invariant forall j :: 0 <= j < i ==> listedFiles[j] == target[j]
        invariant forall j :: i <= j < |listedFiles| ==> listedFiles[j] == old(listedFiles)[j]
      {
        if listedFiles[i].id == fileId {
          listedFiles := listedFiles[i := listedFiles[i].(downloadCompleted := completed,
                                                          downloadPercent := percent,
                                                          isDownloading := downloading)];
        }
        i := i + 1;
      }
    }

    /** The `forEach` that sets only the progress of the entries with the content id. */
    method MarkPercent(fileId: string, percent: int)
      modifies this`listedFiles
      ensures listedFiles == SetPercent(old(listedFiles), fileId, percent)
    {
      ghost var target := SetPercent(listedFiles, fileId, percent);
      var i := 0;
      while i < |listedFiles|
        invariant 0 <= i <= |listedFiles| == |target|
        invariant forall j :: 0 <= j < i ==> listedFiles[j] == target[j]
        invariant forall j :: i <= j < |listedFiles| ==> listedFiles[j] == old(listedFiles)[j]
      {
        if listedFiles[i].id == fileId {
          listedFiles := listedFiles[i := listedFiles[i].(downloadPercent := percent)];
        }
        i := i + 1;
      }
    }

    /** The `forEach` that pushes a middle chunk onto every record for the file. */
    method AppendToRecords(fileId: string, chunk: string)
      modifies this`downloads
      ensures downloads == AppendChunk(old(downloads), fileId, chunk)
    {
      var D := downloads;
      ghost var D0 := D;
      ghost var target := AppendChunk(D0, fileId, chunk);
      var i := 0;
      while i < |D|
        invariant 0 <= i <= |D| == |target| == |D0|
        invariant forall j :: 0 <= j < i ==> D[j] == target[j]
        invariant forall j :: i <= j < |D| ==> D[j] == D0[j]
      {
        if D[i].fileId == fileId {
          D := D[i := D[i].(chunks := D[i].chunks + [chunk])];
        }
        i := i + 1;
      }
      downloads := D;
    }

    /**
     * Trusting `upload-file-chunk`: the received bytes are saved without any
     * check. `faulted` is the TypeError of a final chunk with no record, which
     * strikes after the entries were already marked completed.
     */
    method UploadFileChunk(ev: ChunkData) returns (faulted: bool)
      modifies this`listedFiles, this`downloads, this`outbox
      ensures Snapshot() == ReceiveTrusted(old(Snapshot()), ev).peer
      ensures faulted == ReceiveTrusted(old(Snapshot()), ev).faulted
      ensures downloadFileError == old(downloadFileError)
    {
      var c, t, fileId := ev.currentChunk, ev.totalChunks, ev.fileId;
      if c == 1 && t == 1 {
        MarkOverlay(fileId, 100, false, true);
        outbox := outbox + [SaveFileOnDisk(Flatten([ev.chunk]), ev.fileName)];
        return false;
      }
      if c == 1 && t > 1 {
        MarkOverlay(fileId, Percent(c, t), true, false);
        downloads := downloads + [Download([ev.chunk], c == t, fileId, ev.fileName, ev.fileSize,
                                           ev.ownerId, t, ev.fileType)];
        outbox := outbox + [Effect.RequestFileChunk(ChunkRequest(c + 1, fileId, ev.ownerId, ev.targetId))];
        return false;
      }
      if c > 1 && c < t {
        AppendToRecords(fileId, ev.chunk);
        MarkPercent(fileId, Percent(c, t));
        outbox := outbox + [Effect.RequestFileChunk(ChunkRequest(c + 1, fileId, ev.ownerId, ev.targetId))];
        return false;
      }
      if c == t {
        var found := FirstDownload(downloads, fileId);
        MarkOverlay(fileId, 100, false, true);
        if found.None? {
          return true;
        }
        var k := found.value;
        downloads := downloads[k := downloads[k].(chunks := downloads[k].chunks + [ev.chunk])];
        outbox := outbox + [SaveFileOnDisk(Flatten(downloads[k].chunks), downloads[k].fileName)];
        downloads := WithoutDownload(downloads, fileId);
      }
      return false;
    }
  }
}
