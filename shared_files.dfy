/**
 * Turning files picked by the user into owner entries (prepare-shared-files.ts):
 * files already in the catalog under the same hash, name and size are
 * skipped; every other file becomes an owner entry whose chunks are its
 * base64 text cut into pieces of CHUNK_SIZE characters.
 */
module SharedFiles {
  import opened Wrappers
  import opened Seqs
  import opened Protocol
  import opened Catalog
  import opened Transfer
  import opened Session

  /** `item` is the catalog's entry for the picked file `f` whose hash is `hash`. */
  predicate SameFile(item: Entry, hash: string, f: FileMeta)
  {
    item.id == hash && item.file.Some? && item.file.value.name == f.name && item.file.value.size == f.size
  }

  /** The catalog already holds an entry for `f` under `hash`. */
  predicate AlreadyListed(listed: seq<Entry>, hash: string, f: FileMeta)
  {
    exists i :: 0 <= i < |listed| && SameFile(listed[i], hash, f)
  }

  /** The dedupe check as written, `filter(...).length === 0`, fails exactly for the files already listed. */
  lemma MatchesIffListed(listed: seq<Entry>, hash: string, f: FileMeta)
    ensures |Filter(listed, (item: Entry) => SameFile(item, hash, f))| != 0 <==> AlreadyListed(listed, hash, f)
  {
    var matches := Filter(listed, (item: Entry) => SameFile(item, hash, f));
    if matches != [] {
      assert matches[0] in matches;
    } else {
      forall i | 0 <= i < |listed| ensures !SameFile(listed[i], hash, f) {
        assert listed[i] in listed;
      }
    }
  }

  /**
   * The owner entry built for a new file: owned, keyed by the hash, the
   * overlay reset, no password, and chunks that cut `encoded` into pieces of
   * at most CHUNK_SIZE characters which join back to it.
   */
  function OwnerEntry(f: FileMeta, hash: string, encoded: string, deviceName: string, ownerId: string): (e: Entry)
    ensures e.isOwner && e.id == hash && e.ownerId == ownerId && e.deviceName == deviceName
    ensures e.file == Some(f) && e.fileName == f.name && e.fileSize == f.size
    ensures OverlayReset(e) && !e.withPassword && e.totalDownloads == 0
    ensures e.chunks == Split(encoded, CHUNK_SIZE) && Flatten(e.chunks) == encoded
    ensures forall i :: 0 <= i < |e.chunks| ==> 0 < |e.chunks[i]| <= CHUNK_SIZE
  {
    SplitFlatten(encoded, CHUNK_SIZE);
    Entry(hash, ownerId, deviceName, f.name, f.size, "", Some(f), Split(encoded, CHUNK_SIZE),
          false, 0, true, 0, false, false)
  }

  /** The entries the `forEach` has pushed once it has seen the first `k` files. */
  function SharedUpTo(files: seq<FileMeta>, hashes: seq<string>, encoded: seq<string>,
                      listed: seq<Entry>, deviceName: string, ownerId: string, k: nat): seq<Entry>
    requires k <= |files| == |hashes| == |encoded|
  {
    if k == 0 then []
    else
      SharedUpTo(files, hashes, encoded, listed, deviceName, ownerId, k - 1)
      + (if AlreadyListed(listed, hashes[k - 1], files[k - 1]) then []
         else [OwnerEntry(files[k - 1], hashes[k - 1], encoded[k - 1], deviceName, ownerId)])
  }

  /** The indices, among the first `k` files, that are not yet in the catalog. */
  function KeptUpTo(files: seq<FileMeta>, hashes: seq<string>, listed: seq<Entry>, k: nat): seq<nat>
    requires k <= |files| == |hashes|
  {
    if k == 0 then []
    else KeptUpTo(files, hashes, listed, k - 1)
         + (if AlreadyListed(listed, hashes[k - 1], files[k - 1]) then [] else [k - 1])
  }

  /** Every kept index is one of the first `k` files, and one the catalog does not hold yet. */
  lemma {:induction false} KeptSound(files: seq<FileMeta>, hashes: seq<string>, listed: seq<Entry>, k: nat)
    requires k <= |files| == |hashes|
    ensures forall j: nat :: j in KeptUpTo(files, hashes, listed, k) ==> j < k && !AlreadyListed(listed, hashes[j], files[j])
  {
    if k > 0 {
      KeptSound(files, hashes, listed, k - 1);
      var K := KeptUpTo(files, hashes, listed, k - 1);
      var tail: seq<nat> := if AlreadyListed(listed, hashes[k - 1], files[k - 1]) then [] else [k - 1];
      assert KeptUpTo(files, hashes, listed, k) == K + tail;
      forall j: nat | j in K + tail ensures j < k && !AlreadyListed(listed, hashes[j], files[j]) {
        if j !in K {
          assert j in tail;
        }
      }
    }
  }

  /** Every one of the first `k` files the catalog does not hold yet is kept. */
  lemma {:induction false} KeptComplete(files: seq<FileMeta>, hashes: seq<string>, listed: seq<Entry>, k: nat)
    requires k <= |files| == |hashes|
    ensures forall j: nat :: j < k && !AlreadyListed(listed, hashes[j], files[j]) ==> j in KeptUpTo(files, hashes, listed, k)
  {
    if k > 0 {
      KeptComplete(files, hashes, listed, k - 1);
      var K := KeptUpTo(files, hashes, listed, k - 1);
      var tail: seq<nat> := if AlreadyListed(listed, hashes[k - 1], files[k - 1]) then [] else [k - 1];
      assert KeptUpTo(files, hashes, listed, k) == K + tail;
      forall j: nat | j < k && !AlreadyListed(listed, hashes[j], files[j]) ensures j in K + tail {
        if j < k - 1 {
          assert j in K;
        } else {
          assert tail == [k - 1];
        }
      }
    }
  }

  /** The kept indices come in increasing order, so each file appears at most once. */
  lemma {:induction false} KeptIncreasing(files: seq<FileMeta>, hashes: seq<string>, listed: seq<Entry>, k: nat)
    requires k <= |files| == |hashes|
    ensures forall a, b :: 0 <= a < b < |KeptUpTo(files, hashes, listed, k)| ==>
      KeptUpTo(files, hashes, listed, k)[a] < KeptUpTo(files, hashes, listed, k)[b]
  {
    if k > 0 {
      KeptIncreasing(files, hashes, listed, k - 1);
      KeptSound(files, hashes, listed, k - 1);
      var K := KeptUpTo(files, hashes, listed, k - 1);
      var tail: seq<nat> := if AlreadyListed(listed, hashes[k - 1], files[k - 1]) then [] else [k - 1];
      var R := K + tail;
      assert KeptUpTo(files, hashes, listed, k) == R;
      forall a, b | 0 <= a < b < |R| ensures R[a] < R[b] {
        if b >= |K| {
          assert R[a] == K[a] && K[a] in K;
        }
      }
    }
  }

  /** The result holds, in order, the owner entry of every kept file and nothing else. */
  lemma {:induction false} SharedAreKept(files: seq<FileMeta>, hashes: seq<string>, encoded: seq<string>,
                                         listed: seq<Entry>, deviceName: string, ownerId: string, k: nat)
    requires k <= |files| == |hashes| == |encoded|
    ensures var r, kept := SharedUpTo(files, hashes, encoded, listed, deviceName, ownerId, k), KeptUpTo(files, hashes, listed, k);
      && |r| == |kept|
      && forall m :: 0 <= m < |kept| ==>
           (kept[m] < k && r[m] == OwnerEntry(files[kept[m]], hashes[kept[m]], encoded[kept[m]], deviceName, ownerId))
  {
    if k > 0 {
      SharedAreKept(files, hashes, encoded, listed, deviceName, ownerId, k - 1);
    }
  }

  /**
   * The dedupe check reads only the catalog passed in, not the entries made
   * earlier in the same call: a file picked twice is listed twice.
   */
  lemma PickedTwiceListedTwice(files: seq<FileMeta>, hashes: seq<string>, encoded: seq<string>,
                               listed: seq<Entry>, deviceName: string, ownerId: string, a: nat, b: nat)
    requires |files| == |hashes| == |encoded|
    requires a < b < |files| && files[a] == files[b] && hashes[a] == hashes[b]
    requires !AlreadyListed(listed, hashes[a], files[a])
    ensures var kept := KeptUpTo(files, hashes, listed, |files|);
      a in kept && b in kept
  {
    KeptComplete(files, hashes, listed, |files|);
  }

  /** A catalog that grows keeps every file it already held. */
  lemma ListedStaysListed(listed: seq<Entry>, more: seq<Entry>, hash: string, f: FileMeta)
    requires AlreadyListed(listed, hash, f)
    ensures AlreadyListed(listed + more, hash, f)
  {
    var i :| 0 <= i < |listed| && SameFile(listed[i], hash, f);
    assert (listed + more)[i] == listed[i];
  }

  /** Once the result is added to the catalog, every file of the call is in it. */
  lemma ListedAfterSharing(files: seq<FileMeta>, hashes: seq<string>, encoded: seq<string>,
                           listed: seq<Entry>, deviceName: string, ownerId: string, j: nat)
    requires |files| == |hashes| == |encoded| && j < |files|
    ensures AlreadyListed(listed + SharedUpTo(files, hashes, encoded, listed, deviceName, ownerId, |files|),
                          hashes[j], files[j])
  {
    var full := SharedUpTo(files, hashes, encoded, listed, deviceName, ownerId, |files|);
    if AlreadyListed(listed, hashes[j], files[j]) {
      ListedStaysListed(listed, full, hashes[j], files[j]);
    } else {
      KeptComplete(files, hashes, listed, |files|);
      SharedAreKept(files, hashes, encoded, listed, deviceName, ownerId, |files|);
      var kept := KeptUpTo(files, hashes, listed, |files|);
      var m :| 0 <= m < |kept| && kept[m] == j;
      var e := full[m];
      assert e == OwnerEntry(files[j], hashes[j], encoded[j], deviceName, ownerId);
      assert SameFile(e, hashes[j], files[j]);
      assert (listed + full)[|listed| + m] == e;
    }
  }

  /** Sharing the same files again, once their entries are in the catalog, adds nothing. */
  lemma {:induction false} ShareAgainAddsNothing(files: seq<FileMeta>, hashes: seq<string>, encoded: seq<string>,
                                                 listed: seq<Entry>, deviceName: string, ownerId: string, k: nat)
    requires k <= |files| == |hashes| == |encoded|
    ensures var again := listed + SharedUpTo(files, hashes, encoded, listed, deviceName, ownerId, |files|);
      SharedUpTo(files, hashes, encoded, again, deviceName, ownerId, k) == []
  {
    if k > 0 {
      var again := listed + SharedUpTo(files, hashes, encoded, listed, deviceName, ownerId, |files|);
      ShareAgainAddsNothing(files, hashes, encoded, listed, deviceName, ownerId, k - 1);
      ListedAfterSharing(files, hashes, encoded, listed, deviceName, ownerId, k - 1);
      assert AlreadyListed(again, hashes[k - 1], files[k - 1]);
      assert SharedUpTo(files, hashes, encoded, again, deviceName, ownerId, k)
          == SharedUpTo(files, hashes, encoded, again, deviceName, ownerId, k - 1) + [];
    }
  }

  /** The character loop: one character at a time, a piece pushed whenever it reaches CHUNK_SIZE. */
  method ChunkEncoded(s: string) returns (chunks: seq<string>)
    ensures chunks == Split(s, CHUNK_SIZE)
  {
    chunks := [];
    var chunk := "";
    var i := 0;
    ghost var pieces: nat := 0;
    while i < |s|
      invariant 0 <= i <= |s|
      invariant |chunk| < CHUNK_SIZE
      invariant i - |chunk| == CHUNK_SIZE * pieces
      invariant chunk == s[i - |chunk| .. i]
      invariant chunks == Split(s[..i - |chunk|], CHUNK_SIZE)
    {
      chunk := chunk + [s[i]];
      i := i + 1;
      if |chunk| == CHUNK_SIZE {
        ghost var done := s[..CHUNK_SIZE * pieces];
        assert s[..i] == done + chunk;
        SplitAppend(done, chunk, CHUNK_SIZE, pieces);
        SplitShort(chunk, CHUNK_SIZE);
        chunks := chunks + [chunk];
        chunk := "";
        pieces := pieces + 1;
      }
    }
    if chunk != "" {
      ghost var done := s[..CHUNK_SIZE * pieces];
      assert s == done + chunk;
      SplitAppend(done, chunk, CHUNK_SIZE, pieces);
      SplitShort(chunk, CHUNK_SIZE);
      chunks := chunks + [chunk];
    } else {
      assert s[..i] == s;
    }
  }

  /**
   * `prepareSharedFiles`: `hashes` and `encoded` are the awaited hash and
   * base64 text of each file, in the order of `files`.
   */
  method PrepareSharedFiles(files: seq<FileMeta>, hashes: seq<string>, encoded: seq<string>,
                            listedFiles: seq<Entry>, deviceName: string, ownerId: string)
    returns (result: seq<Entry>)
    requires |hashes| == |files| && |encoded| == |files|
    ensures result == SharedUpTo(files, hashes, encoded, listedFiles, deviceName, ownerId, |files|)
  {
    result := [];
    var index := 0;
    while index < |files|
      invariant 0 <= index <= |files|
      invariant result == SharedUpTo(files, hashes, encoded, listedFiles, deviceName, ownerId, index)
    {
      var file := files[index];
      var alreadyListed := Filter(listedFiles, (item: Entry) => SameFile(item, hashes[index], file));
      MatchesIffListed(listedFiles, hashes[index], file);
      if |alreadyListed| == 0 {
        var chunks := ChunkEncoded(encoded[index]);
        var entry := Entry(hashes[index], ownerId, deviceName, file.name, file.size, "", Some(file), chunks,
                           false, 0, true, 0, false, false);
        assert entry == OwnerEntry(file, hashes[index], encoded[index], deviceName, ownerId);
        result := result + [entry];
      }
      assert SharedUpTo(files, hashes, encoded, listedFiles, deviceName, ownerId, index + 1)
          == SharedUpTo(files, hashes, encoded, listedFiles, deviceName, ownerId, index)
             + (if AlreadyListed(listedFiles, hashes[index], files[index]) then []
                else [OwnerEntry(files[index], hashes[index], encoded[index], deviceName, ownerId)]);
      index := index + 1;
    }
  }

  /**
   * A file whose base64 text is empty is shared with no chunks. The owner
   * answers `download-file` with an absent chunk 1 of 0, and whatever chunk
   * value arrives, neither variant of the requester's handler takes a
   * branch: the file is never saved and the state does not change.
   */
  lemma EmptyFileNeverArrives(p: Peer, f: FileMeta, hash: string, deviceName: string, ownerId: string,
                              targetId: string, chunk: string, digest: string -> string)
    ensures var e := OwnerEntry(f, hash, "", deviceName, ownerId);
      && e.chunks == []
      && DownloadReply([e], hash, targetId) == [UploadFileChunk(None, 1, hash, f.name, f.size, ownerId, targetId, 0, "")]
    ensures var ev := ChunkData(chunk, 1, hash, f.name, f.size, ownerId, targetId, 0, "");
      && ReceiveVerified(p, ev, digest) == Outcome(p, false)
      && ReceiveTrusted(p, ev) == Outcome(p, false)
  {
    var e := OwnerEntry(f, hash, "", deviceName, ownerId);
    assert FirstOwned([e], hash) == Some(0);
    AbsentChunkIgnored(e, 1, hash, targetId);
  }

  /**
   * End to end: an owner entry made from a file's base64 text, fetched by a
   * requester with the verifying handler, is saved with exactly that text
   * when its hash is the entry's id, and rejected otherwise.
   */
  lemma SharedFileRoundTrip(p: Peer, f: FileMeta, hash: string, encoded: string, deviceName: string,
                            ownerId: string, targetId: string, digest: string -> string)
    requires encoded != []
    requires RecordsFor(p.downloads, hash) == []
    ensures |OwnerEntry(f, hash, encoded, deviceName, ownerId).chunks| >= 1
    ensures var e := OwnerEntry(f, hash, encoded, deviceName, ownerId);
      Downloaded(p, e, hash, targetId).outbox
        == p.outbox + Requests(hash, ownerId, targetId, |e.chunks| - 1) + [SaveFileOnDisk(encoded, f.name)]
    ensures var e := OwnerEntry(f, hash, encoded, deviceName, ownerId);
      digest(encoded) == hash ==> VerifiedAfter(p, e, hash, targetId, |e.chunks|, digest) == Downloaded(p, e, hash, targetId)
    ensures var e := OwnerEntry(f, hash, encoded, deviceName, ownerId);
      digest(encoded) != hash ==> VerifiedAfter(p, e, hash, targetId, |e.chunks|, digest) == Rejected(p, e, hash, targetId)
  {
    var e := OwnerEntry(f, hash, encoded, deviceName, ownerId);
    assert Flatten(e.chunks) == encoded && e.fileName == f.name;
    assert |e.chunks| >= 1;
    var save := SaveFileOnDisk(Flatten(e.chunks), e.fileName);
    assert save == SaveFileOnDisk(encoded, f.name);
    assert Downloaded(p, e, hash, targetId).outbox == p.outbox + Requests(hash, ownerId, targetId, |e.chunks| - 1) + [save];
    if digest(encoded) == hash {
      VerifiedAccepts(p, e, hash, targetId, digest);
    } else {
      VerifiedRejects(p, e, hash, targetId, digest);
    }
  }
}
