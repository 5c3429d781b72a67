/**
 * The records the peer keeps and exchanges: catalog entries, download records,
 * the chunk envelopes of the upload and request events, and the effects a
 * handler produces (events emitted on the socket, files handed to the saver).
 */
module Protocol {
  import opened Wrappers

  /** Size of one chunk, 128 KiB. */
  const CHUNK_SIZE: nat := 1024 * 128

  /** The text of the error surfaced when a reassembled file fails its check. */
  const DOWNLOAD_ERROR_TEXT: string := "Downloaded file differs from the original file!"

  /** The browser `File` an owner shared, as far as the dedupe check reads it. */
  datatype FileMeta = FileMeta(name: string, size: int)

  /**
   * One advertised file. `id` is the content hash, `ownerId` the advertising
   * connection; the last three fields are the local download overlay.
   */
  datatype Entry = Entry(
    id: string,
    ownerId: string,
    deviceName: string,
    fileName: string,
    fileSize: int,
    fileType: string,
    file: Option<FileMeta>,
    chunks: seq<string>,
    withPassword: bool,
    totalDownloads: int,
    isOwner: bool,
    downloadPercent: int,
    isDownloading: bool,
    downloadCompleted: bool)

  /** One file being fetched: the chunks received so far, in arrival order. */
  datatype Download = Download(
    chunks: seq<string>,
    downloadCompleted: bool,
    fileId: string,
    fileName: string,
    fileSize: int,
    ownerId: string,
    totalChunks: int,
    fileType: string)

  /** Payload of an inbound `upload-file-chunk` event. */
  datatype ChunkData = ChunkData(
    chunk: string,
    currentChunk: int,
    fileId: string,
    fileName: string,
    fileSize: int,
    ownerId: string,
    targetId: string,
    totalChunks: int,
    fileType: string)

  /** Payload of a `request-file-chunk` event; `chunkIndex` counts from 1. */
  datatype ChunkRequest = ChunkRequest(chunkIndex: int, fileId: string, ownerId: string, targetId: string)

  /** What the peer records when a reassembled file fails its check. */
  datatype DownloadError = DownloadError(errorText: string, file: Entry)

  /** What a handler does outside the two lists. */
  datatype Effect =
    | /** emit `upload-file-chunk`; `chunk` is absent when the index is past the owner's chunks */
      UploadFileChunk(chunk: Option<string>, currentChunk: int, fileId: string, fileName: string,
                      fileSize: int, ownerId: string, targetId: string, totalChunks: int, fileType: string)
    | /** emit `request-file-chunk` */
      RequestFileChunk(request: ChunkRequest)
    | /** hand the reassembled content to the on-disk saver */
      SaveFileOnDisk(content: string, fileName: string)

  /** The part of the peer's state the transfer handlers read and write. */
  datatype Peer = Peer(
    listedFiles: seq<Entry>,
    downloads: seq<Download>,
    downloadFileError: Option<DownloadError>,
    outbox: seq<Effect>)
}
