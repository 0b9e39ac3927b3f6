/** Reading, writing and truncating regular files: plans over chunk rows, payload work, then the batch replacement
    of the rows, each proved to do to the flat byte sequence what its caller expects. */
module FileContent {
  import opened Types
  import opened Schema
  import opened ChunkTable
  import opened FlatFile

  datatype ChunkRead = ChunkRead(row: Option<ChunkRow>, index: int, expected: nat, start: nat, stop: nat)

  datatype WriteKind = FullChunkReplace | PartialExistingReplace | SparseExtendPartial

  datatype ChunkWrite = ChunkWrite(index: nat, chunkLen: nat, existingLen: nat, writeStart: nat, writeStop: nat,
                                   sourceStart: nat, row: Option<ChunkRow>, kind: WriteKind)

  function RowAt(chunks: Chunks, file: InodeId, index: int): Option<ChunkRow> {
    if Key(file, index) in chunks then Some(chunks[Key(file, index)]) else None
  }

  /** The part of chunk `index` that a read of [offset, end) takes from a file of `size` bytes. */
  function PlannedRead(chunks: Chunks, cs: int, file: InodeId, size: nat, offset: nat, end: nat, index: int): ChunkRead
    requires cs > 0 && offset < end <= size && offset / cs <= index <= (end - 1) / cs
  {
    assert 0 <= index * cs <= end - 1 && offset < index * cs + cs by {
      Split(offset, cs);
      Split(end - 1, cs);
      Monotone(0, offset, cs);
      Monotone(index, (end - 1) / cs, cs);
      Monotone(offset / cs, index, cs);
      Monotone(0, index, cs);
    }
    var expected := Min(index * cs + cs, size) - index * cs;
    ChunkRead(RowAt(chunks, file, index), index, expected, Max(offset - index * cs, 0), Min(end - index * cs, expected))
  }

  function PlannedPart(chunks: Chunks, file: InodeId, r: ChunkRead): Bytes
    requires r.start <= r.stop <= r.expected
  {
    ReadPart(chunks, file, r.index, r.expected, r.start, r.stop)
  }

  /** What the chunk reads of a plan return, joined. */
  function Joined(chunks: Chunks, file: InodeId, plan: seq<ChunkRead>): Bytes
    requires forall i :: 0 <= i < |plan| ==> plan[i].start <= plan[i].stop <= plan[i].expected
  {
    if plan == [] then
      []
    else
      Joined(chunks, file, plan[..|plan| - 1]) + PlannedPart(chunks, file, plan[|plan| - 1])
  }

  lemma PlannedReadFacts(chunks: Chunks, cs: int, file: InodeId, size: nat, offset: nat, end: nat, index: int)
    requires cs > 0 && offset < end <= size && offset / cs <= index <= (end - 1) / cs
    ensures var r := PlannedRead(chunks, cs, file, size, offset, end, index);
      && r.start <= r.stop <= r.expected <= cs && 0 <= index * cs && index * cs + r.expected <= size
      && index * cs + r.start == Max(offset, index * cs)
      && index * cs + r.stop == Min(end, index * cs + cs)
      && (index == offset / cs ==> index * cs <= offset)
      && (index == (end - 1) / cs ==> end <= index * cs + cs)
      && (index + 1) * cs == index * cs + cs
  {
    Split(offset, cs);
    Split(end - 1, cs);
    Monotone(0, offset, cs);
    Monotone(index, (end - 1) / cs, cs);
    Monotone(offset / cs, index, cs);
    Monotone(0, index, cs);
    assert (index + 1) * cs == index * cs + cs;
  }

  ghost predicate IsReadPlan(chunks: Chunks, cs: int, file: InodeId, size: nat, offset: nat, end: nat,
                             plan: seq<ChunkRead>)
    requires cs > 0 && offset < end <= size
  {
    && |plan| <= (end - 1) / cs - offset / cs + 1
    && forall i :: 0 <= i < |plan| ==> plan[i] == PlannedRead(chunks, cs, file, size, offset, end, offset / cs + i)
  }

  lemma PlanMore(chunks: Chunks, cs: int, file: InodeId, size: nat, offset: nat, end: nat, plan: seq<ChunkRead>,
                 r: ChunkRead)
    requires cs > 0 && offset < end <= size && IsReadPlan(chunks, cs, file, size, offset, end, plan)
    requires |plan| < (end - 1) / cs - offset / cs + 1
    requires r == PlannedRead(chunks, cs, file, size, offset, end, offset / cs + |plan|)
    ensures IsReadPlan(chunks, cs, file, size, offset, end, plan + [r])
  {
  }

  lemma PlanBounds(chunks: Chunks, cs: int, file: InodeId, size: nat, offset: nat, end: nat, plan: seq<ChunkRead>)
    requires cs > 0 && offset < end <= size && IsReadPlan(chunks, cs, file, size, offset, end, plan)
    ensures forall i :: 0 <= i < |plan| ==> plan[i].start <= plan[i].stop <= plan[i].expected
  {
    forall i | 0 <= i < |plan| ensures plan[i].start <= plan[i].stop <= plan[i].expected {
      PlannedReadFacts(chunks, cs, file, size, offset, end, offset / cs + i);
    }
  }

  /** Where the first `n` chunks of the plan stop. */
  function StopOf(cs: int, offset: nat, end: nat, n: nat): int
    requires cs > 0
  {
    if n == 0 then offset else Min(end, (offset / cs + n) * cs)
  }

  lemma StopsMeet(chunks: Chunks, cs: int, file: InodeId, size: nat, offset: nat, end: nat, n: nat)
    requires cs > 0 && offset < end <= size && n < (end - 1) / cs - offset / cs + 1
    ensures var (index, r) := (offset / cs + n, PlannedRead(chunks, cs, file, size, offset, end, offset / cs + n));
      && StopOf(cs, offset, end, n) == index * cs + r.start && StopOf(cs, offset, end, n + 1) == index * cs + r.stop
  {
    PlannedReadFacts(chunks, cs, file, size, offset, end, offset / cs + n);
    if n > 0 {
      PlannedReadFacts(chunks, cs, file, size, offset, end, offset / cs + n - 1);
    }
  }

  lemma LastPart(chunks: Chunks, cs: int, file: InodeId, size: nat, offset: nat, end: nat, n: nat)
    requires cs > 0 && offset < end <= size && n < (end - 1) / cs - offset / cs + 1
    ensures offset <= StopOf(cs, offset, end, n) <= StopOf(cs, offset, end, n + 1) <= size
    ensures var r := PlannedRead(chunks, cs, file, size, offset, end, offset / cs + n);
      && r.start <= r.stop <= r.expected
      && PlannedPart(chunks, file, r)
           == Contents(chunks, cs, file, size)[StopOf(cs, offset, end, n)..StopOf(cs, offset, end, n + 1)]
  {
    var index := offset / cs + n;
    var r := PlannedRead(chunks, cs, file, size, offset, end, index);
    PlannedReadFacts(chunks, cs, file, size, offset, end, index);
    StopsMeet(chunks, cs, file, size, offset, end, n);
    PartAt(chunks, cs, file, size, r, index * cs, StopOf(cs, offset, end, n), StopOf(cs, offset, end, n + 1));
  }

  lemma PartAt(chunks: Chunks, cs: int, file: InodeId, size: nat, r: ChunkRead, base: nat, from: nat, to: nat)
    requires cs > 0 && r.index >= 0 && base == r.index * cs && r.start <= r.stop <= r.expected <= cs
    requires base + r.expected <= size
    requires from == base + r.start && to == base + r.stop
    ensures PlannedPart(chunks, file, r) == Contents(chunks, cs, file, size)[from..to]
  {
    ReadPartIsSlice(chunks, cs, file, size, r.index, r.expected, r.start, r.stop);
  }

  lemma SliceJoin(all: Bytes, a: nat, b: nat, c: nat)
    requires a <= b <= c <= |all|
    ensures all[a..b] + all[b..c] == all[a..c]
  {
  }

  /** A plan for consecutive chunks reads the flat bytes from the offset up to where its last chunk stops. */
  lemma {:induction false} PlanReadsSlice(chunks: Chunks, cs: int, file: InodeId, size: nat, offset: nat, end: nat,
                                          plan: seq<ChunkRead>)
    requires cs > 0 && offset < end <= size && IsReadPlan(chunks, cs, file, size, offset, end, plan)
    ensures forall i :: 0 <= i < |plan| ==> plan[i].start <= plan[i].stop <= plan[i].expected
    ensures offset <= StopOf(cs, offset, end, |plan|) <= size
    ensures Joined(chunks, file, plan) == Contents(chunks, cs, file, size)[offset..StopOf(cs, offset, end, |plan|)]
  {
    PlanBounds(chunks, cs, file, size, offset, end, plan);
    if plan != [] {
      var n := |plan| - 1;
      PlanReadsSlice(chunks, cs, file, size, offset, end, plan[..n]);
      PlanReadsMore(chunks, cs, file, size, offset, end, plan, n);
    }
  }

  lemma PlanReadsMore(chunks: Chunks, cs: int, file: InodeId, size: nat, offset: nat, end: nat, plan: seq<ChunkRead>,
                      n: nat)
    requires cs > 0 && offset < end <= size && |plan| == n + 1 <= (end - 1) / cs - offset / cs + 1
    requires plan[n] == PlannedRead(chunks, cs, file, size, offset, end, offset / cs + n)
    requires forall i :: 0 <= i < |plan| ==> plan[i].start <= plan[i].stop <= plan[i].expected
    requires offset <= StopOf(cs, offset, end, n) <= size
    requires Joined(chunks, file, plan[..n]) == Contents(chunks, cs, file, size)[offset..StopOf(cs, offset, end, n)]
    ensures offset <= StopOf(cs, offset, end, n + 1) <= size
    ensures Joined(chunks, file, plan) == Contents(chunks, cs, file, size)[offset..StopOf(cs, offset, end, n + 1)]
  {
    LastPart(chunks, cs, file, size, offset, end, n);
    JoinedMore(chunks, file, plan, Contents(chunks, cs, file, size), offset, StopOf(cs, offset, end, n),
      StopOf(cs, offset, end, n + 1));
  }

  lemma JoinedMore(chunks: Chunks, file: InodeId, plan: seq<ChunkRead>, all: Bytes, from: nat, mid: nat, to: nat)
    requires plan != [] && forall i :: 0 <= i < |plan| ==> plan[i].start <= plan[i].stop <= plan[i].expected
    requires from <= mid <= to <= |all| && Joined(chunks, file, plan[..|plan| - 1]) == all[from..mid]
    requires PlannedPart(chunks, file, plan[|plan| - 1]) == all[mid..to]
    ensures Joined(chunks, file, plan) == all[from..to]
  {
    SliceJoin(all, from, mid, to);
  }

  /** The whole plan stops at the end of the read. */
  lemma WholePlanStops(cs: int, offset: nat, end: nat)
    requires cs > 0 && offset < end
    ensures offset / cs <= (end - 1) / cs
    ensures StopOf(cs, offset, end, (end - 1) / cs - offset / cs + 1) == end
  {
    Monotone(offset, end - 1, cs);
    Split(end - 1, cs);
    assert ((end - 1) / cs + 1) * cs == ((end - 1) / cs) * cs + cs;
  }

  // ----- planning a write -----

  ghost predicate Touches(cs: int, data: Bytes, offset: nat, index: int)
    requires cs > 0
  {
    data != [] && offset / cs <= index <= (offset + |data| - 1) / cs
  }

  lemma TouchedBounds(cs: int, data: Bytes, offset: nat, index: int)
    requires cs > 0 && Touches(cs, data, offset, index)
    ensures 0 <= index && 0 <= index * cs <= offset + |data| - 1 && offset < index * cs + cs
    ensures index == offset / cs ==> index * cs <= offset
    ensures index > offset / cs ==> offset <= index * cs
    ensures index == (offset + |data| - 1) / cs ==> offset + |data| <= index * cs + cs
    ensures index < (offset + |data| - 1) / cs ==> index * cs + cs <= offset + |data| - 1
  {
    var last := offset + |data| - 1;
    Monotone(0, offset, cs);
    Scale(index, cs);
    Below(last, index, cs);
    Above(offset, index, cs);
    NextChunk(index - 1, cs);
    NextChunk(index, cs);
    if index == offset / cs {
      Below(offset, index, cs);
    } else {
      Above(offset, index - 1, cs);
    }
    if index == last / cs {
      Above(last, index, cs);
    } else {
      Below(last, index + 1, cs);
    }
  }

  function KindOf(chunkLen: nat, existingLen: nat, writeStart: nat, writeStop: nat): WriteKind {
    if writeStart == 0 && writeStop == chunkLen then FullChunkReplace
    else if existingLen < chunkLen then SparseExtendPartial
    else PartialExistingReplace
  }

  function PlannedWrite(chunks: Chunks, cs: int, file: InodeId, size: nat, data: Bytes, offset: nat,
                        index: int): ChunkWrite
    requires cs > 0 && Touches(cs, data, offset, index)
  {
    TouchedBounds(cs, data, offset, index);
    var first := index * cs;
    var chunkLen := Min(first + cs, Max(size, offset + |data|)) - first;
    var existingLen := Max(0, Min(cs, size - first));
    var writeStart := Max(offset - first, 0);
    var writeStop := Min(offset + |data| - first, chunkLen);
    ChunkWrite(index, chunkLen, existingLen, writeStart, writeStop, first + writeStart - offset,
               RowAt(chunks, file, index), KindOf(chunkLen, existingLen, writeStart, writeStop))
  }

  lemma PlannedWriteFacts(chunks: Chunks, cs: int, file: InodeId, size: nat, data: Bytes, offset: nat, index: int)
    requires cs > 0 && Touches(cs, data, offset, index)
    ensures var w := PlannedWrite(chunks, cs, file, size, data, offset, index);
      && w.index == index && w.writeStart < w.writeStop <= w.chunkLen <= cs
      && w.existingLen == Max(0, Min(cs, size - index * cs)) && w.existingLen <= w.chunkLen
      && w.sourceStart + w.writeStop - w.writeStart <= |data|
      && w.sourceStart + w.writeStop - w.writeStart == Min(index * cs + cs, offset + |data|) - offset
      && (index == offset / cs ==> w.sourceStart == 0)
      && (index > offset / cs ==> w.sourceStart == index * cs - offset)
      && w.chunkLen == Min(cs, Max(size, offset + |data|) - index * cs)
      && (w.kind == FullChunkReplace <==> offset <= index * cs && index * cs + w.chunkLen <= offset + |data|)
      && (w.kind == SparseExtendPartial <==> w.kind != FullChunkReplace && size < index * cs + w.chunkLen)
  {
    TouchedBounds(cs, data, offset, index);
  }

  /** The bytes of the chunk before the write, zero-filled to its new length. */
  function OldPart(chunks: Chunks, file: InodeId, w: ChunkWrite): Bytes {
    Fit(if w.existingLen == 0 then [] else Fit(Part(chunks, file, w.index), w.existingLen), w.chunkLen)
  }

  lemma OldPartIs(chunks: Chunks, file: InodeId, w: ChunkWrite, part: Bytes)
    requires w.existingLen <= w.chunkLen
    requires part == if w.existingLen == 0 then [] else Fit(Part(chunks, file, w.index), w.existingLen)
    ensures (if |part| < w.chunkLen then part + Zeros(w.chunkLen - |part|) else part) == OldPart(chunks, file, w)
  {
  }

  /** What `prepare_file_write` makes of one chunk. */
  function Patched(before: Bytes, w: ChunkWrite, data: Bytes): Bytes
    requires |before| == w.chunkLen && w.writeStart <= w.writeStop <= w.chunkLen
    requires w.sourceStart + w.writeStop - w.writeStart <= |data|
  {
    var source := data[w.sourceStart..w.sourceStart + w.writeStop - w.writeStart];
    if w.kind == FullChunkReplace then source else Spliced(before, source, w.writeStart)
  }

  /** `b[start:start + len(source)] = source` on a bytearray. */
  function Spliced(b: Bytes, source: Bytes, start: nat): (r: Bytes)
    requires start + |source| <= |b|
    ensures |r| == |b|
    ensures forall o :: 0 <= o < |b| ==> r[o] == if start <= o < start + |source| then source[o - start] else b[o]
  {
    b[..start] + source + b[start + |source|..]
  }

  lemma SourceByte(data: Bytes, from: nat, to: nat, o: nat)
    requires from <= to <= |data| && o < to - from
    ensures data[from..to][o] == data[from + o]
  {
  }

  lemma PatchedByte(before: Bytes, w: ChunkWrite, data: Bytes, o: nat)
    requires |before| == w.chunkLen && w.writeStart <= w.writeStop <= w.chunkLen
    requires w.sourceStart + w.writeStop - w.writeStart <= |data|
    requires w.kind == FullChunkReplace ==> w.writeStart == 0 && w.writeStop == w.chunkLen
    requires o < w.chunkLen
    ensures |Patched(before, w, data)| == w.chunkLen
    ensures Patched(before, w, data)[o]
         == if w.writeStart <= o < w.writeStop then data[w.sourceStart + o - w.writeStart] else before[o]
  {
    var to := w.sourceStart + w.writeStop - w.writeStart;
    if w.writeStart <= o < w.writeStop {
      SourceByte(data, w.sourceStart, to, o - w.writeStart);
    }
    if w.kind == FullChunkReplace {
      assert Patched(before, w, data) == data[w.sourceStart..to];
    } else {
      var spliced := Spliced(before, data[w.sourceStart..to], w.writeStart);
      assert Patched(before, w, data) == spliced;
    }
  }

  /** A chunk write at `base`, in terms of positions only. */
  ghost predicate WritesAt(w: ChunkWrite, base: nat, size: nat, data: Bytes, offset: nat) {
    && w.writeStart == Max(offset - base, 0) && w.writeStop == Min(offset + |data| - base, w.chunkLen)
    && w.sourceStart == base + w.writeStart - offset && w.writeStart <= w.writeStop
    && w.sourceStart + w.writeStop - w.writeStart <= |data|
    && (w.kind == FullChunkReplace ==> w.writeStart == 0 && w.writeStop == w.chunkLen)
    && base + w.chunkLen <= Max(size, offset + |data|)
  }

  /** The bytes of `b` from `base` on, zero-filled. */
  ghost predicate IsWindow(before: Bytes, b: Bytes, base: nat) {
    forall o :: 0 <= o < |before| ==> before[o] == if base + o < |b| then b[base + o] else 0
  }

  lemma PatchedSpliceByte(w: ChunkWrite, before: Bytes, b: Bytes, data: Bytes, offset: nat, base: nat, o: nat)
    requires data != [] && |before| == w.chunkLen && IsWindow(before, b, base) && WritesAt(w, base, |b|, data, offset)
    requires o < w.chunkLen
    ensures |Patched(before, w, data)| == w.chunkLen
      && Patched(before, w, data)[o] == SpliceByte(b, data, offset, base + o)
  {
    PatchedByte(before, w, data, o);
    assert before[o] == if base + o < |b| then b[base + o] else 0;
  }

  lemma PatchedLength(w: ChunkWrite, before: Bytes, data: Bytes, base: nat, size: nat, offset: nat)
    requires |before| == w.chunkLen && WritesAt(w, base, size, data, offset)
    ensures |Patched(before, w, data)| == w.chunkLen
  {
  }

  lemma PatchIsSplice(w: ChunkWrite, before: Bytes, b: Bytes, data: Bytes, offset: nat, base: nat)
    requires data != [] && |before| == w.chunkLen && IsWindow(before, b, base) && WritesAt(w, base, |b|, data, offset)
    ensures Patched(before, w, data) == FlatWrite(b, data, offset)[base..base + w.chunkLen]
  {
    var patched, written := Patched(before, w, data), FlatWrite(b, data, offset);
    PatchedLength(w, before, data, base, |b|, offset);
    forall o | 0 <= o < w.chunkLen ensures patched[o] == written[base..base + w.chunkLen][o] {
      PatchedSpliceByte(w, before, b, data, offset, base, o);
      assert written[base + o] == SpliceByte(b, data, offset, base + o);
    }
  }

  lemma PlannedWritesAt(chunks: Chunks, cs: int, file: InodeId, size: nat, data: Bytes, offset: nat, index: int)
    requires cs > 0 && Touches(cs, data, offset, index)
    ensures 0 <= index * cs && index >= 0
    ensures var w := PlannedWrite(chunks, cs, file, size, data, offset, index);
      && WritesAt(w, index * cs, size, data, offset)
      && w.chunkLen == Min(cs, Max(size, offset + |data|) - index * cs)
  {
    TouchedBounds(cs, data, offset, index);
  }

  lemma PatchIsPart(w: ChunkWrite, before: Bytes, b: Bytes, data: Bytes, offset: nat, cs: int, index: nat, base: nat)
    requires cs > 0 && Touches(cs, data, offset, index) && base == index * cs
    requires |before| == w.chunkLen && IsWindow(before, b, base) && WritesAt(w, base, |b|, data, offset)
    requires w.chunkLen == Min(cs, Max(|b|, offset + |data|) - base)
    ensures Patched(before, w, data) == WrittenPart(b, data, offset, cs, index)
  {
    PatchIsSplice(w, before, b, data, offset, base);
  }

  /** Splicing the source bytes into the old chunk gives the chunk of the spliced file. */
  lemma PatchedIsWritten(chunks: Chunks, cs: int, file: InodeId, size: nat, data: Bytes, offset: nat, index: int)
    requires cs > 0 && Touches(cs, data, offset, index)
    ensures index >= 0
    ensures var w := PlannedWrite(chunks, cs, file, size, data, offset, index);
      && w.writeStart <= w.writeStop <= w.chunkLen && w.sourceStart + w.writeStop - w.writeStart <= |data|
      && Patched(OldPart(chunks, file, w), w, data)
           == WrittenPart(Contents(chunks, cs, file, size), data, offset, cs, index)
  {
    var w := PlannedWrite(chunks, cs, file, size, data, offset, index);
    PlannedWritesAt(chunks, cs, file, size, data, offset, index);
    PlannedWriteFacts(chunks, cs, file, size, data, offset, index);
    OldPartIsWindow(chunks, cs, file, size, w, index * cs);
    PatchIsPart(w, OldPart(chunks, file, w), Contents(chunks, cs, file, size), data, offset, cs, index, index * cs);
  }

  lemma OldPartIsWindow(chunks: Chunks, cs: int, file: InodeId, size: nat, w: ChunkWrite, base: nat)
    requires cs > 0 && base == w.index * cs && w.existingLen == Max(0, Min(cs, size - base))
    requires w.existingLen <= w.chunkLen <= cs
    ensures IsWindow(OldPart(chunks, file, w), Contents(chunks, cs, file, size), base)
  {
    forall o | 0 <= o < w.chunkLen
      ensures OldPart(chunks, file, w)[o] == if base + o < size then Contents(chunks, cs, file, size)[base + o] else 0
    {
      ByteInChunk(chunks, cs, file, w.index, o);
    }
  }
}
