/** The plain byte sequence a file stands for, and how chunk rows represent it: fixed-size chunks,
    missing rows for holes, and tail blocks that may be shorter than the chunk they fill. */
module FlatFile {
  import opened Types
  import opened Schema
  import opened ChunkTable

  // ----- the specification: a file is a byte sequence -----

  function FlatRead(b: Bytes, size: int, offset: nat): (r: Bytes) {
    if size <= 0 || offset >= |b| then [] else b[offset..Min(offset + size, |b|)]
  }

  function SpliceByte(b: Bytes, data: Bytes, offset: nat, p: nat): Byte {
    if offset <= p < offset + |data| then data[p - offset] else if p < |b| then b[p] else 0
  }

  /** A splice that fills the gap past the old end with zeros. */
  function FlatWrite(b: Bytes, data: Bytes, offset: nat): (r: Bytes) {
    if data == [] then
      b
    else
      seq(Max(|b|, offset + |data|), p requires 0 <= p => SpliceByte(b, data, offset, p))
  }

  function FlatTruncate(b: Bytes, length: nat): (r: Bytes) {
    Fit(b, length)
  }

  // ----- the representation -----

  function Part(chunks: Chunks, file: InodeId, index: int): Bytes {
    if Key(file, index) in chunks then chunks[Key(file, index)].digest.data else []
  }

  function ByteAt(chunks: Chunks, cs: int, file: InodeId, p: nat): Byte
    requires cs > 0
  {
    var part := Part(chunks, file, p / cs);
    if p % cs < |part| then part[p % cs] else 0
  }

  function Contents(chunks: Chunks, cs: int, file: InodeId, size: nat): (r: Bytes)
    requires cs > 0
    ensures |r| == size
  {
    seq(size, p requires 0 <= p => ByteAt(chunks, cs, file, p))
  }

  /** Every row of the file holds a nonempty block that ends inside its chunk and inside the file. */
  ghost predicate RowFits(row: ChunkRow, index: int, cs: int, size: nat) {
    && 0 <= index && 0 < |row.digest.data| <= cs && index * cs + |row.digest.data| <= size
    && row.size == |row.digest.data|
  }

  ghost predicate ChunksFit(chunks: Chunks, cs: int, file: InodeId, size: nat) {
    forall k :: k in chunks && k.file == file ==> RowFits(chunks[k], k.index, cs, size)
  }

  // ----- chunk arithmetic -----

  lemma Split(p: int, cs: int)
    requires cs > 0
    ensures p == (p / cs) * cs + p % cs && 0 <= p % cs < cs
  {
  }

  lemma Scale(k: int, cs: int)
    requires cs > 0
    ensures k >= 1 ==> k * cs >= cs
    ensures k <= -1 ==> k * cs <= -cs
    ensures k >= 0 ==> k * cs >= 0
  {
    if k >= 1 {
      assert (k - 1) * cs >= 0;
      assert (k - 1) * cs == k * cs - cs;
    } else if k <= -1 {
      assert (-k - 1) * cs >= 0;
      assert (-k - 1) * cs == -(k * cs) - cs;
    }
  }

  lemma Unique(p: int, q: int, r: int, cs: int)
    requires cs > 0 && p == q * cs + r && 0 <= r < cs
    ensures p / cs == q && p % cs == r
  {
    Split(p, cs);
    var k := p / cs - q;
    assert k * cs == (p / cs) * cs - q * cs;
    Scale(k, cs);
  }

  lemma Locate(index: int, o: int, cs: int)
    requires cs > 0 && 0 <= o < cs
    ensures (index * cs + o) / cs == index && (index * cs + o) % cs == o
  {
    Unique(index * cs + o, index, o, cs);
  }

  lemma Monotone(a: int, b: int, cs: int)
    requires cs > 0 && a <= b
    ensures a * cs <= b * cs && a / cs <= b / cs
  {
    assert (b - a) * cs == b * cs - a * cs;
    Scale(b - a, cs);
    Split(a, cs);
    Split(b, cs);
    var k := a / cs - b / cs;
    assert k * cs == (a / cs) * cs - (b / cs) * cs;
    Scale(k, cs);
  }

  lemma Below(p: int, index: int, cs: int)
    requires cs > 0 && index <= p / cs
    ensures index * cs <= p
  {
    Split(p, cs);
    Scale(p / cs - index, cs);
    assert (p / cs - index) * cs == (p / cs) * cs - index * cs;
  }

  lemma Above(p: int, index: int, cs: int)
    requires cs > 0 && p / cs <= index
    ensures p < index * cs + cs
  {
    Split(p, cs);
    Scale(index - p / cs, cs);
    assert (index - p / cs) * cs == index * cs - (p / cs) * cs;
  }

  lemma NextChunk(index: int, cs: int)
    ensures (index + 1) * cs == index * cs + cs
  {
  }

  /** A position lies in a chunk exactly when it falls between the chunk's ends. */
  lemma InChunk(p: int, index: int, cs: int)
    requires cs > 0
    ensures p / cs == index <==> index * cs <= p < index * cs + cs
  {
    Split(p, cs);
    if index * cs <= p < index * cs + cs {
      Locate(index, p - index * cs, cs);
    }
  }

  /** Bytes past the end of the file read as zero. */
  lemma PastEnd(chunks: Chunks, cs: int, file: InodeId, size: nat, p: nat)
    requires cs > 0 && ChunksFit(chunks, cs, file, size) && p >= size
    ensures ByteAt(chunks, cs, file, p) == 0
  {
    Split(p, cs);
    if Key(file, p / cs) in chunks {
      assert RowFits(chunks[Key(file, p / cs)], p / cs, cs, size);
    }
  }

  lemma ByteInChunk(chunks: Chunks, cs: int, file: InodeId, index: nat, o: nat)
    requires cs > 0 && o < cs
    ensures 0 <= index * cs
    ensures ByteAt(chunks, cs, file, index * cs + o)
         == if o < |Part(chunks, file, index)| then Part(chunks, file, index)[o] else 0
  {
    Locate(index, o, cs);
  }

  // ----- reading -----

  /** The bytes of one planned chunk read, `start` and `stop` being offsets inside the chunk. */
  function ReadPart(chunks: Chunks, file: InodeId, index: int, expected: nat, start: nat, stop: nat): Bytes
    requires start <= stop <= expected
  {
    Fit(Part(chunks, file, index), expected)[start..stop]
  }

  lemma ReadPartIsSlice(chunks: Chunks, cs: int, file: InodeId, size: nat, index: nat, expected: nat, start: nat,
                        stop: nat)
    requires cs > 0 && start <= stop <= expected <= cs && 0 <= index * cs && index * cs + expected <= size
    ensures ReadPart(chunks, file, index, expected, start, stop)
         == Contents(chunks, cs, file, size)[index * cs + start..index * cs + stop]
  {
    var all := Contents(chunks, cs, file, size);
    var part := ReadPart(chunks, file, index, expected, start, stop);
    forall k | 0 <= k < stop - start ensures part[k] == all[index * cs + start..index * cs + stop][k] {
      ByteInChunk(chunks, cs, file, index, start + k);
    }
  }

  // ----- writing -----

  function RowFor(part: Bytes): ChunkRow {
    ChunkRow(Digest(part), |part|)
  }

  /** The block a write stores for one touched chunk. */
  function WrittenPart(before: Bytes, data: Bytes, offset: nat, cs: int, index: nat): (r: Bytes)
    requires cs > 0 && data != [] && offset / cs <= index <= (offset + |data| - 1) / cs
    ensures 0 <= index * cs
    ensures 0 < |r| == Min(cs, |FlatWrite(before, data, offset)| - index * cs)
    ensures r == FlatWrite(before, data, offset)[index * cs..index * cs + |r|]
  {
    Split(offset + |data| - 1, cs);
    Monotone(index, (offset + |data| - 1) / cs, cs);
    Monotone(0, index, cs);
    assert 0 <= index * cs <= offset + |data| - 1;
    var result := FlatWrite(before, data, offset);
    result[index * cs..index * cs + Min(cs, |result| - index * cs)]
  }

  predicate SameRow(chunks: Chunks, after: Chunks, k: Key) {
    (k in after <==> k in chunks) && (k in after ==> after[k] == chunks[k])
  }

  /** `after` is `chunks` with the rows of the touched chunks replaced and no other row changed. */
  ghost predicate WriteRows(chunks: Chunks, after: Chunks, file: InodeId, cs: int, size: nat, data: Bytes, offset: nat)
    requires cs > 0 && data != []
  {
    && (forall i: nat :: offset / cs <= i <= (offset + |data| - 1) / cs ==>
          Key(file, i) in after
            && after[Key(file, i)] == RowFor(WrittenPart(Contents(chunks, cs, file, size), data, offset, cs, i)))
    && (forall k: Key ::
         !(k.file == file && offset / cs <= k.index <= (offset + |data| - 1) / cs) ==> SameRow(chunks, after, k))
  }

  lemma WriteByte(chunks: Chunks, after: Chunks, file: InodeId, cs: int, size: nat, data: Bytes, offset: nat, p: nat)
    requires cs > 0 && data != [] && ChunksFit(chunks, cs, file, size)
    requires WriteRows(chunks, after, file, cs, size, data, offset)
    requires p < Max(size, offset + |data|)
    ensures ByteAt(after, cs, file, p) == FlatWrite(Contents(chunks, cs, file, size), data, offset)[p]
  {
    var before := Contents(chunks, cs, file, size);
    var first, last := offset / cs, (offset + |data| - 1) / cs;
    var i := p / cs;
    Split(p, cs);
    Monotone(0, p, cs);
    if first <= i <= last {
      var part := WrittenPart(before, data, offset, cs, i);
      assert Part(after, file, i) == part;
      assert part[p % cs] == FlatWrite(before, data, offset)[i * cs + p % cs];
    } else {
      if offset <= p < offset + |data| {
        Monotone(offset, p, cs);
        Monotone(p, offset + |data| - 1, cs);
      }
      assert Part(after, file, i) == Part(chunks, file, i);
      if p >= size {
        PastEnd(chunks, cs, file, size, p);
      }
    }
  }

  /** Storing the touched chunks splices the data into the flat file, through holes, short tail blocks
      and chunk boundaries, and keeps the representation well formed. */
  lemma WriteRefines(chunks: Chunks, after: Chunks, file: InodeId, cs: int, size: nat, data: Bytes, offset: nat)
    requires cs > 0 && data != [] && ChunksFit(chunks, cs, file, size)
    requires WriteRows(chunks, after, file, cs, size, data, offset)
    ensures Contents(after, cs, file, Max(size, offset + |data|))
         == FlatWrite(Contents(chunks, cs, file, size), data, offset)
    ensures ChunksFit(after, cs, file, Max(size, offset + |data|))
  {
    forall p | 0 <= p < Max(size, offset + |data|)
      ensures ByteAt(after, cs, file, p) == FlatWrite(Contents(chunks, cs, file, size), data, offset)[p]
    {
      WriteByte(chunks, after, file, cs, size, data, offset, p);
    }
    forall k | k in after && k.file == file
      ensures RowFits(after[k], k.index, cs, Max(size, offset + |data|))
    {
      if offset / cs <= k.index <= (offset + |data| - 1) / cs {
        Monotone(0, offset, cs);
        var part := WrittenPart(Contents(chunks, cs, file, size), data, offset, cs, k.index);
        assert after[Key(file, k.index)] == RowFor(part);
      } else {
        assert RowFits(chunks[k], k.index, cs, size);
      }
    }
  }

  // ----- truncating -----

  /** First chunk index that lies wholly at or past `length`. */
  function FirstRemoved(length: nat, cs: int): int
    requires cs > 0
  {
    (length + cs - 1) / cs
  }

  /** Rows from `FirstRemoved` on are gone; when a shortened file ends inside a chunk, that chunk is
      rewritten with the bytes that remain. */
  ghost predicate TruncateRows(chunks: Chunks, after: Chunks, file: InodeId, cs: int, size: nat, length: nat)
    requires cs > 0
  {
    var boundary := length < size && length % cs != 0;
    var last := Key(file, length / cs);
    && (forall k: Key :: k.file == file && k.index >= FirstRemoved(length, cs) ==> k !in after)
    && (forall k: Key ::
         (k.file != file || k.index < FirstRemoved(length, cs)) && !(boundary && k == last) ==>
           SameRow(chunks, after, k))
    && (boundary ==> last in after && after[last].size == length % cs)
    && (boundary ==> after[last].digest.data == Contents(chunks, cs, file, size)[length - length % cs..length])
  }

  lemma RoundUp(length: nat, cs: int)
    requires cs > 0
    ensures length % cs == 0 ==> FirstRemoved(length, cs) == length / cs
    ensures length % cs != 0 ==> FirstRemoved(length, cs) == length / cs + 1
    ensures length - length % cs == (length / cs) * cs
  {
    Split(length, cs);
    if length % cs == 0 {
      Locate(length / cs, cs - 1, cs);
    } else {
      Locate(length / cs + 1, length % cs - 1, cs);
      assert length + cs - 1 == (length / cs + 1) * cs + (length % cs - 1);
    }
  }

  lemma TruncateByte(chunks: Chunks, after: Chunks, file: InodeId, cs: int, size: nat, length: nat, p: nat)
    requires cs > 0 && ChunksFit(chunks, cs, file, size)
    requires TruncateRows(chunks, after, file, cs, size, length) && p < length
    ensures ByteAt(after, cs, file, p) == if p < size then ByteAt(chunks, cs, file, p) else 0
  {
    RoundUp(length, cs);
    Split(p, cs);
    Split(length, cs);
    Monotone(p, length, cs);
    Monotone(0, p, cs);
    if p / cs == length / cs && length < size && length % cs != 0 {
      assert Part(after, file, p / cs)[p % cs] == Contents(chunks, cs, file, size)[p];
    } else {
      InChunk(p, p / cs, cs);
      assert length % cs == 0 ==> p / cs < length / cs by {
        if p / cs >= length / cs { Monotone(length / cs, p / cs, cs); }
      }
      assert Part(after, file, p / cs) == Part(chunks, file, p / cs);
      if p >= size {
        PastEnd(chunks, cs, file, size, p);
      }
    }
  }

  lemma TruncateKeepsFit(chunks: Chunks, after: Chunks, file: InodeId, cs: int, size: nat, length: nat, k: Key)
    requires cs > 0 && ChunksFit(chunks, cs, file, size)
    requires TruncateRows(chunks, after, file, cs, size, length)
    requires k in after && k.file == file
    ensures RowFits(after[k], k.index, cs, length)
  {
    RoundUp(length, cs);
    Split(length, cs);
    if length < size && length % cs != 0 && k == Key(file, length / cs) {
      Monotone(0, length, cs);
    } else {
      assert RowFits(chunks[k], k.index, cs, size);
      if length < size {
        KeptEndsBefore(k.index, length, cs);
      }
    }
  }

  lemma KeptEndsBefore(index: int, length: nat, cs: int)
    requires cs > 0 && index < FirstRemoved(length, cs) && !(length % cs != 0 && index == length / cs)
    ensures index * cs + cs <= length
  {
    RoundUp(length, cs);
    Monotone(index + 1, length / cs, cs);
    assert (index + 1) * cs == index * cs + cs;
    Split(length, cs);
  }

  /** Truncation keeps the first `length` bytes and extends with zeros. */
  lemma TruncateRefines(chunks: Chunks, after: Chunks, file: InodeId, cs: int, size: nat, length: nat)
    requires cs > 0 && ChunksFit(chunks, cs, file, size)
    requires TruncateRows(chunks, after, file, cs, size, length)
    ensures Contents(after, cs, file, length) == FlatTruncate(Contents(chunks, cs, file, size), length)
    ensures ChunksFit(after, cs, file, length)
  {
    forall p | 0 <= p < length
      ensures ByteAt(after, cs, file, p) == FlatTruncate(Contents(chunks, cs, file, size), length)[p]
    {
      TruncateByte(chunks, after, file, cs, size, length, p);
    }
    forall k | k in after && k.file == file ensures RowFits(after[k], k.index, cs, length) {
      TruncateKeepsFit(chunks, after, file, cs, size, length, k);
    }
  }

  /** A file's bytes depend on its own rows only. */
  lemma OtherRowsDoNotMatter(chunks: Chunks, after: Chunks, cs: int, file: InodeId, size: nat)
    requires cs > 0
    requires forall k: Key :: k.file == file ==> SameRow(chunks, after, k)
    ensures Contents(after, cs, file, size) == Contents(chunks, cs, file, size)
    ensures ChunksFit(after, cs, file, size) == ChunksFit(chunks, cs, file, size)
  {
    forall p | 0 <= p < size ensures ByteAt(after, cs, file, p) == ByteAt(chunks, cs, file, p) {
      assert Part(after, file, p / cs) == Part(chunks, file, p / cs);
    }
  }
}
