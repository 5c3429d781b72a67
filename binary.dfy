/**
 * Cutting a file's bytes into CHUNK_SIZE slices (`convertFileToArrayBufferChunks`
 * in binary.ts), once the reader has produced them.
 */
module Binary {
  import opened Wrappers
  import opened Seqs
  import opened Protocol

  newtype byte = x: int | 0 <= x < 256

  /**
   * `None` is a load event without a target or a result; both resolve to no
   * chunks. Otherwise the bytes are cut into ceil(length / CHUNK_SIZE)
   * slices, the last one running to the end of the buffer.
   */
  method ConvertToArrayBufferChunks(binary: Option<seq<byte>>) returns (chunks: seq<seq<byte>>)
    ensures binary.None? ==> chunks == []
    ensures binary.Some? ==> chunks == Split(binary.value, CHUNK_SIZE)
  {
    if binary.None? {
      return [];
    }
    var b := binary.value;
    var chunksNumber := (|b| + CHUNK_SIZE - 1) / CHUNK_SIZE;
    ghost var pieces := Split(b, CHUNK_SIZE);
    SplitLength(b, CHUNK_SIZE);
    assert |pieces| == chunksNumber;
    if chunksNumber == 1 {
      SplitAt(b, CHUNK_SIZE, 0);
      assert b[CHUNK_SIZE * 0..] == b;
      return [b];
    }
    chunks := [];
    var i := 0;
    while i < chunksNumber
      invariant 0 <= i <= chunksNumber
      invariant chunks == pieces[..i]
    {
      var begin := CHUNK_SIZE * i;
      SplitAt(b, CHUNK_SIZE, i);
      var end := if i < chunksNumber - 1 then begin + CHUNK_SIZE else |b|;
      assert b[begin..end] == pieces[i] by {
        if i == chunksNumber - 1 {
          assert b[begin..] == b[begin..|b|];
        }
      }
      chunks := chunks + [b[begin..end]];
      assert pieces[..i + 1] == pieces[..i] + [pieces[i]];
      i := i + 1;
    }
    assert pieces[..i] == pieces;
  }

  /** The slices join back to the bytes read, and none is longer than CHUNK_SIZE. */
  lemma ChunksRoundTrip(b: seq<byte>)
    ensures Flatten(Split(b, CHUNK_SIZE)) == b
    ensures forall i :: 0 <= i < |Split(b, CHUNK_SIZE)| ==> 0 < |Split(b, CHUNK_SIZE)[i]| <= CHUNK_SIZE
  {
    SplitFlatten(b, CHUNK_SIZE);
  }
}
