/** The synthetic "system_guess" parser stage (`GuessParserPlugin`): it drains
    the input into a bounded sample, runs the guess strategies over it and
    always ends the transaction with the guess signal. */
module GuessParser {
  import opened Configs
  import opened Buffers
  import opened Outcomes

  /** A guess strategy (`GuessPlugin.guess`): from the parser configuration
      and the sample bytes to a partial configuration, or a failure. */
  type Strategy = (Config, seq<byte>) -> Outcome<Config, StageError>

  /** What the input plugin hands the parser: files in order, each a
      sequence of byte chunks in order. */
  type Files = seq<seq<seq<byte>>>

  /** A chunk, by its file and its place in that file. */
  datatype ChunkPos = ChunkPos(file: nat, chunk: nat)

  function Min(a: int, b: int): int
  {
    if a <= b then a else b
  }

  /** Every chunk, file after file. */
  function Chunks(files: Files): seq<seq<byte>>
  {
    if |files| == 0 then [] else Chunks(files[..|files| - 1]) + files[|files| - 1]
  }

  /** All bytes of the chunks, in order. */
  function Concat(chunks: seq<seq<byte>>): seq<byte>
  {
    if |chunks| == 0 then [] else Concat(chunks[..|chunks| - 1]) + chunks[|chunks| - 1]
  }

  /** The first `n` chunk positions of file `f`. */
  function FilePositions(f: nat, n: nat): (r: seq<ChunkPos>)
    ensures |r| == n && forall c :: 0 <= c < n ==> r[c] == ChunkPos(f, c)
  {
    seq(n, c requires 0 <= c < n => ChunkPos(f, c))
  }

  /** The positions of all chunks, in the order the collector visits them. */
  function Positions(files: Files): (r: seq<ChunkPos>)
    ensures |r| == |Chunks(files)|
  {
    if |files| == 0 then []
    else Positions(files[..|files| - 1]) + FilePositions(|files| - 1, |files[|files| - 1]|)
  }

  /** The i-th visited position names a chunk of the input, and that chunk
      is the i-th of all chunks. */
  lemma {:induction false} PositionAt(files: Files, i: nat)
    requires i < |Positions(files)|
    ensures Positions(files)[i].file < |files|
    ensures Positions(files)[i].chunk < |files[Positions(files)[i].file]|
    ensures i == |Chunks(files[..Positions(files)[i].file])| + Positions(files)[i].chunk
    ensures Chunks(files)[i] == files[Positions(files)[i].file][Positions(files)[i].chunk]
  {
    var n := |files| - 1;
    var pre := files[..n];
    assert Positions(files) == Positions(pre) + FilePositions(n, |files[n]|);
    assert Chunks(files) == Chunks(pre) + files[n];
    if i < |Positions(pre)| {
      PositionAt(pre, i);
      var p := Positions(pre)[i];
      assert pre[p.file] == files[p.file];
      assert pre[..p.file] == files[..p.file];
    }
  }

  /** Every chunk of every file is visited. */
  lemma PositionsCoverEveryChunk(files: Files, f: nat, c: nat)
    requires f < |files| && c < |files[f]|
    ensures ChunkPos(f, c) in Positions(files)
  {
    ChunksBefore(files, f, c + 1);
    var k := |Chunks(files[..f])| + c;
    assert (Positions(files[..f]) + FilePositions(f, c + 1))[k] == ChunkPos(f, c);
    assert Positions(files)[k] == ChunkPos(f, c);
  }

  /** No chunk is visited twice. */
  lemma PositionsDistinct(files: Files, i: nat, j: nat)
    requires i < j < |Positions(files)|
    ensures Positions(files)[i] != Positions(files)[j]
  {
    PositionAt(files, i);
    PositionAt(files, j);
  }

  /** The state of the whole-chunk copy after some chunks: the bytes copied
      so far, or the chunk whose copy passed the capacity and the bytes
      copied before it. */
  datatype Copy = Copied(bytes: seq<byte>) | Straddled(at: nat, bytes: seq<byte>)

  /** One chunk of the collector's inner loop, as written: skip once the
      sample is full, otherwise copy the whole chunk, which fails when it
      does not fit. */
  function CopyStep(st: Copy, chunk: seq<byte>, at: nat, max: nat): (r: Copy)
    ensures st.Straddled? ==> r == st
    ensures st.Copied? && r.Copied? ==> r.bytes == st.bytes || r.bytes == st.bytes + chunk
    ensures st.Copied? && r.Copied? && r.bytes != st.bytes ==> |r.bytes| <= max
    ensures st.Copied? && r.Straddled? ==>
      r == Straddled(at, st.bytes) && |st.bytes| < max < |st.bytes| + |chunk|
    ensures st.Copied? && |st.bytes| >= max ==> r == st
    ensures st.Copied? && |st.bytes| < max ==> (r.Straddled? <==> max < |st.bytes| + |chunk|)
    ensures st.Copied? && |st.bytes| < max && r.Copied? ==> r.bytes == st.bytes + chunk
  {
    match st
    case Straddled(_, _) => st
    case Copied(b) =>
      if |b| >= max then st
      else if |b| + |chunk| > max then Straddled(at, b)
      else Copied(b + chunk)
  }

  /** The whole-chunk copy over a sequence of chunks. */
  function CopyWhole(chunks: seq<seq<byte>>, max: nat): (r: Copy)
    ensures r.Copied? ==> |r.bytes| <= max
    ensures r.Straddled? ==> r.at < |chunks|
  {
    if |chunks| == 0 then Copied([])
    else CopyStep(CopyWhole(chunks[..|chunks| - 1], max), chunks[|chunks| - 1], |chunks| - 1, max)
  }

  lemma CopyWholeSnoc(xs: seq<seq<byte>>, x: seq<byte>, max: nat)
    ensures CopyWhole(xs + [x], max) == CopyStep(CopyWhole(xs, max), x, |xs|, max)
  {
    assert (xs + [x])[..|xs|] == xs;
  }

  /** What the whole-chunk copy yields: all the input, or a prefix that fills
      the sample exactly, or a failure at a chunk that would overrun it. */
  lemma {:induction false} CopyWholeMeaning(chunks: seq<seq<byte>>, max: nat)
    ensures CopyWhole(chunks, max).Copied? ==>
      CopyWhole(chunks, max).bytes <= Concat(chunks) &&
      (CopyWhole(chunks, max).bytes == Concat(chunks) || |CopyWhole(chunks, max).bytes| == max)
    ensures CopyWhole(chunks, max).Straddled? ==>
      var at, b := CopyWhole(chunks, max).at, CopyWhole(chunks, max).bytes;
      b == Concat(chunks[..at]) && |b| < max < |b| + |chunks[at]|
  {
    if |chunks| > 0 {
      var n := |chunks| - 1;
      var pre := chunks[..n];
      CopyWholeMeaning(pre, max);
      assert chunks[..n] == pre;
      assert Concat(chunks) == Concat(pre) + chunks[n];
      match CopyWhole(pre, max)
      case Straddled(at, b) =>
        assert chunks[..at] == pre[..at];
      case Copied(b) =>
    }
  }

  /** Once a copy has failed, more chunks do not change the outcome. */
  lemma {:induction false} StraddleSticks(xs: seq<seq<byte>>, ys: seq<seq<byte>>, max: nat)
    requires xs <= ys
    requires CopyWhole(xs, max).Straddled?
    ensures CopyWhole(ys, max) == CopyWhole(xs, max)
  {
    if |ys| > |xs| {
      var pre := ys[..|ys| - 1];
      assert xs <= pre;
      StraddleSticks(xs, pre, max);
    } else {
      assert xs == ys;
    }
  }

  /** While the input fits below the capacity, every chunk is copied whole. */
  lemma {:induction false} CopyWholeBelow(chunks: seq<seq<byte>>, max: nat)
    requires |Concat(chunks)| < max
    ensures CopyWhole(chunks, max) == Copied(Concat(chunks))
  {
    if |chunks| > 0 {
      var n := |chunks| - 1;
      assert Concat(chunks) == Concat(chunks[..n]) + chunks[n];
      CopyWholeBelow(chunks[..n], max);
    }
  }

  /** A chunk that starts below the capacity and ends past it always makes
      the whole-chunk copy fail, at that chunk. */
  lemma CopyWholeStraddles(chunks: seq<seq<byte>>, max: nat, i: nat)
    requires i < |chunks|
    requires |Concat(chunks[..i])| < max < |Concat(chunks[..i])| + |chunks[i]|
    ensures CopyWhole(chunks, max) == Straddled(i, Concat(chunks[..i]))
  {
    CopyWholeBelow(chunks[..i], max);
    assert chunks[..i + 1][..i] == chunks[..i];
    assert CopyWhole(chunks[..i + 1], max) == Straddled(i, Concat(chunks[..i]));
    StraddleSticks(chunks[..i + 1], chunks, max);
  }

  /** With no room or no bytes the copy collects nothing, and only then. */
  lemma {:induction false} CopyWholeNothing(chunks: seq<seq<byte>>, max: nat)
    ensures CopyWhole(chunks, max) == Copied([]) <==> max == 0 || Concat(chunks) == []
  {
    if |chunks| > 0 {
      var n := |chunks| - 1;
      CopyWholeNothing(chunks[..n], max);
      assert Concat(chunks) == Concat(chunks[..n]) + chunks[n];
    }
    CopyWholeMeaning(chunks, max);
  }

  /** How `getSample`, as written, ends: its result and how many chunks it
      released before ending. */
  datatype Sampling = Sampling(result: Outcome<seq<byte>, StageError>, releasedCount: nat)

  function SampleAsWritten(files: Files, maxSampleSize: int): (s: Sampling)
    ensures s.releasedCount <= |Chunks(files)|
  {
    if maxSampleSize < 0 then Sampling(Fail(AllocationError), 0)
    else match CopyWhole(Chunks(files), maxSampleSize)
      case Straddled(at, _) => Sampling(Fail(BoundsError), at)
      case Copied(b) => Sampling(if |b| == 0 then Fail(NoInputBuffer) else Done(b), |Chunks(files)|)
  }

  /** The outcomes of `getSample` as written: every chunk is released unless a
      chunk overruns the capacity; the sample is all the input or fills the
      buffer exactly; zero bytes is the "No input buffer to guess" error. */
  lemma SampleAsWrittenMeaning(files: Files, maxSampleSize: int)
    ensures maxSampleSize < 0 ==> SampleAsWritten(files, maxSampleSize) == Sampling(Fail(AllocationError), 0)
    ensures SampleAsWritten(files, maxSampleSize).result.Done? ==>
      var b := SampleAsWritten(files, maxSampleSize).result.value;
      0 < |b| <= maxSampleSize && b <= Concat(Chunks(files)) &&
      (b == Concat(Chunks(files)) || |b| == maxSampleSize) &&
      SampleAsWritten(files, maxSampleSize).releasedCount == |Chunks(files)|
    ensures SampleAsWritten(files, maxSampleSize).result == Fail(NoInputBuffer) <==>
      0 <= maxSampleSize && (maxSampleSize == 0 || Concat(Chunks(files)) == [])
    ensures SampleAsWritten(files, maxSampleSize).result == Fail(BoundsError) ==>
      var k := SampleAsWritten(files, maxSampleSize).releasedCount;
      k < |Chunks(files)| &&
      |Concat(Chunks(files)[..k])| < maxSampleSize < |Concat(Chunks(files)[..k])| + |Chunks(files)[k]|
    ensures 0 <= maxSampleSize ==>
      (SampleAsWritten(files, maxSampleSize).releasedCount == |Chunks(files)| <==>
       SampleAsWritten(files, maxSampleSize).result != Fail(BoundsError))
  {
    if maxSampleSize >= 0 {
      CopyWholeMeaning(Chunks(files), maxSampleSize);
      CopyWholeNothing(Chunks(files), maxSampleSize);
    }
  }

  /** `getSample` as written fails with the bounds error whenever a chunk
      starts below the capacity and ends past it, and then releases only the
      chunks before it. */
  lemma SampleAsWrittenStraddles(files: Files, maxSampleSize: int, i: nat)
    requires 0 <= maxSampleSize
    requires i < |Chunks(files)|
    requires |Concat(Chunks(files)[..i])| < maxSampleSize < |Concat(Chunks(files)[..i])| + |Chunks(files)[i]|
    ensures SampleAsWritten(files, maxSampleSize) == Sampling(Fail(BoundsError), i)
  {
    CopyWholeStraddles(Chunks(files), maxSampleSize, i);
  }

  /** A sample of 4 bytes over chunks of 3 bytes: the second chunk straddles
      the capacity, so the sample as written fails where a truncated copy
      would return the first 4 bytes. */
  lemma StraddlingChunkFailsSample()
    ensures SampleAsWritten([[[1, 2, 3], [4, 5, 6]]], 4).result == Fail(BoundsError)
    ensures SampleTruncated([[[1, 2, 3], [4, 5, 6]]], 4) == Done([1, 2, 3, 4])
  {
    var files: Files := [[[1, 2, 3], [4, 5, 6]]];
    assert files[..0] == [];
    assert Chunks(files) == [[1, 2, 3], [4, 5, 6]];
    var chunks := Chunks(files);
    assert chunks[..1] == [[1, 2, 3]];
    assert chunks[..1][..0] == [];
    assert CopyWhole(chunks[..1], 4) == Copied([1, 2, 3]);
    assert CopyTruncating(chunks[..1], 4) == [1, 2, 3];
    assert chunks[1][..Min(3, 1)] == [4];
    assert TruncatedStep([1, 2, 3], chunks[1], 4) == [1, 2, 3, 4];
    assert CopyTruncating(chunks, 4) == [1, 2, 3, 4];
  }

  /** One chunk of the corrected collector: copy as much of the chunk as
      still fits. */
  function TruncatedStep(b: seq<byte>, chunk: seq<byte>, max: nat): (r: seq<byte>)
    ensures b <= r && r[|b|..] <= chunk
    ensures |b| <= max ==> |r| == Min(|b| + |chunk|, max)
  {
    if |b| >= max then b else b + chunk[..Min(|chunk|, max - |b|)]
  }

  /** The corrected copy over a sequence of chunks. */
  function CopyTruncating(chunks: seq<seq<byte>>, max: nat): (r: seq<byte>)
    ensures |r| <= max
  {
    if |chunks| == 0 then []
    else TruncatedStep(CopyTruncating(chunks[..|chunks| - 1], max), chunks[|chunks| - 1], max)
  }

  lemma CopyTruncatingSnoc(xs: seq<seq<byte>>, x: seq<byte>, max: nat)
    ensures CopyTruncating(xs + [x], max) == TruncatedStep(CopyTruncating(xs, max), x, max)
  {
    assert (xs + [x])[..|xs|] == xs;
  }

  /** The corrected copy collects exactly the first `max` bytes of the input,
      or all of it when it is shorter. */
  lemma {:induction false} CopyTruncatingIsPrefix(chunks: seq<seq<byte>>, max: nat)
    ensures CopyTruncating(chunks, max) == Concat(chunks)[..Min(max, |Concat(chunks)|)]
  {
    if |chunks| > 0 {
      var n := |chunks| - 1;
      var pre, chunk := chunks[..n], chunks[n];
      CopyTruncatingIsPrefix(pre, max);
      var c0 := Concat(pre);
      assert Concat(chunks) == c0 + chunk;
      var b := CopyTruncating(pre, max);
      if |b| < max {
        assert b == c0;
        var t := Min(|chunk|, max - |b|);
        assert (c0 + chunk)[..Min(max, |c0 + chunk|)] == c0 + chunk[..t];
      } else {
        assert (c0 + chunk)[..max] == c0[..max];
      }
    }
  }

  /** `getSample` with the copy truncated to the room left. */
  function SampleTruncated(files: Files, maxSampleSize: int): (r: Outcome<seq<byte>, StageError>)
    ensures r.Done? ==> 0 < |r.value| <= maxSampleSize
    ensures r.Fail? ==> (r.error == AllocationError <==> maxSampleSize < 0)
    ensures r.Fail? ==> r.error == AllocationError || r.error == NoInputBuffer
  {
    if maxSampleSize < 0 then Fail(AllocationError)
    else
      var b := CopyTruncating(Chunks(files), maxSampleSize);
      if |b| == 0 then Fail(NoInputBuffer) else Done(b)
  }

  /** The corrected sample is the first `min(S, M)` bytes of an input of `M`
      bytes for a sample size `S`, and fails exactly when that is zero. */
  lemma SampleTruncatedMeaning(files: Files, maxSampleSize: int)
    ensures maxSampleSize < 0 ==> SampleTruncated(files, maxSampleSize) == Fail(AllocationError)
    ensures 0 <= maxSampleSize ==>
      var total := Concat(Chunks(files));
      SampleTruncated(files, maxSampleSize) ==
        if Min(maxSampleSize, |total|) == 0 then Fail(NoInputBuffer)
        else Done(total[..Min(maxSampleSize, |total|)])
  {
    if maxSampleSize >= 0 {
      CopyTruncatingIsPrefix(Chunks(files), maxSampleSize);
    }
  }

  /** Facts about a prefix of the files: its chunks and their positions are
      prefixes of those of all the files. */
  lemma {:induction false} FilesPrefix(files: Files, m: nat)
    requires m <= |files|
    ensures Chunks(files[..m]) <= Chunks(files)
    ensures Positions(files[..m]) <= Positions(files)
  {
    if m < |files| {
      var n := |files| - 1;
      assert files[..n][..m] == files[..m];
      FilesPrefix(files[..n], m);
    } else {
      assert files[..m] == files;
    }
  }

  lemma FilesSnoc(files: Files, f: nat)
    requires f < |files|
    ensures Chunks(files[..f + 1]) == Chunks(files[..f]) + files[f]
    ensures Positions(files[..f + 1]) == Positions(files[..f]) + FilePositions(f, |files[f]|)
  {
    assert files[..f + 1][..f] == files[..f];
  }

  /** Where the collector stands after chunk `c` of file `f`. */
  lemma ChunksBefore(files: Files, f: nat, c: nat)
    requires f < |files| && c <= |files[f]|
    ensures Chunks(files[..f]) + files[f][..c] <= Chunks(files)
    ensures Positions(files[..f]) + FilePositions(f, c) ==
            Positions(files)[..|Chunks(files[..f])| + c]
  {
    FilesSnoc(files, f);
    FilesPrefix(files, f + 1);
    var xs := Chunks(files[..f]) + files[f][..c];
    assert xs <= Chunks(files[..f + 1]);
    var ps := Positions(files[..f]) + FilePositions(f, c);
    assert ps <= Positions(files[..f + 1]);
  }

  /** After a write of `src` at `off`, the bytes up to its end are the old
      bytes before `off` followed by `src`. */
  lemma WrittenPrefix(before: seq<byte>, after: seq<byte>, off: nat, src: seq<byte>)
    requires off + |src| <= |before|
    requires after == before[..off] + src + before[off + |src|..]
    ensures after[..off + |src|] == before[..off] + src
  {
  }

  /** Once chunk `c` of file `f` straddles the capacity, the rest of the
      files change nothing, and the chunks released so far are the positions
      before it. */
  lemma StraddleInFile(files: Files, f: nat, c: nat, max: nat)
    requires f < |files| && c < |files[f]|
    requires CopyWhole(Chunks(files[..f]) + files[f][..c + 1], max).Straddled?
    ensures |Chunks(files[..f])| + c < |Chunks(files)|
    ensures CopyWhole(Chunks(files), max) == CopyWhole(Chunks(files[..f]) + files[f][..c + 1], max)
    ensures Positions(files[..f]) + FilePositions(f, c) == Positions(files)[..|Chunks(files[..f])| + c]
  {
    ChunksBefore(files, f, c + 1);
    StraddleSticks(Chunks(files[..f]) + files[f][..c + 1], Chunks(files), max);
    ChunksBefore(files, f, c);
  }

  /** One step of the collector as written: while the sample is below
      capacity, copy the whole chunk at the current size. The copy fails
      exactly when the chunk straddles the capacity. */
  method CopyChunk(sample: Buffer, size: nat, chunk: seq<byte>, ghost at: nat) returns (ok: bool, size': nat)
    requires size <= sample.data.Length
    modifies sample.data
    ensures ok ==> size' <= sample.data.Length
    ensures ok ==> CopyStep(Copied(old(sample.data[..size])), chunk, at, sample.data.Length) == Copied(sample.data[..size'])
    ensures !ok ==> size' == size
    ensures !ok ==> CopyStep(Copied(old(sample.data[..size])), chunk, at, sample.data.Length) == Straddled(at, old(sample.data[..size]))
  {
    ok, size' := true, size;
    if size < sample.data.Length {
      ghost var before := sample.data[..];
      ok := sample.SetBytes(size, chunk);
      if ok {
        WrittenPrefix(before, sample.data[..], size, chunk);
        size' := size + |chunk|;
      }
    }
  }

  /** The inner loop of `getSample` as written over the chunks of file `f`,
      after the chunks `prefix` of the earlier files: each chunk is skipped
      once the sample is full, copied whole otherwise, and released. `ok` is
      false when chunk `failedAt` overran the capacity, which ends the
      collection before that chunk is released. */
  method DrainFile(sample: Buffer, chunks: seq<seq<byte>>, f: nat, sampleSize: nat,
                   ghost prefix: seq<seq<byte>>, released: seq<ChunkPos>)
    returns (ok: bool, size: nat, released': seq<ChunkPos>, ghost failedAt: nat)
    requires sampleSize <= sample.data.Length
    requires CopyWhole(prefix, sample.data.Length) == Copied(sample.data[..sampleSize])
    modifies sample.data
    ensures ok ==> size <= sample.data.Length
    ensures ok ==> CopyWhole(prefix + chunks, sample.data.Length) == Copied(sample.data[..size])
    ensures ok ==> released' == released + FilePositions(f, |chunks|)
    ensures !ok ==> failedAt < |chunks|
    ensures !ok ==> CopyWhole(prefix + chunks[..failedAt + 1], sample.data.Length).Straddled?
    ensures !ok ==> CopyWhole(prefix + chunks[..failedAt + 1], sample.data.Length).at == |prefix| + failedAt
    ensures !ok ==> released' == released + FilePositions(f, failedAt)
  {
    var max := sample.data.Length;
    size, released', failedAt := sampleSize, released, 0;
    assert prefix + chunks[..0] == prefix;
    for c := 0 to |chunks|
      invariant size <= max
      invariant CopyWhole(prefix + chunks[..c], max) == Copied(sample.data[..size])
      invariant released' == released + FilePositions(f, c)
    {
      var chunk := chunks[c];
      ghost var xs := prefix + chunks[..c];
      assert xs + [chunk] == prefix + chunks[..c + 1];
      ReleaseStep(released, f, c);
      CopyWholeSnoc(xs, chunk, max);
      var copied;
      copied, size := CopyChunk(sample, size, chunk, |xs|);
      if !copied {
        return false, size, released', c;
      }
      released' := released' + [ChunkPos(f, c)];
    }
    assert chunks[..|chunks|] == chunks;
    ok := true;
  }

  /** `getSample` as written: drains every chunk of every file, copies whole
      chunks at offset `sampleSize` while it is below `maxSampleSize`, and
      releases each chunk it has handled; `released` lists the released
      chunks in order. */
  method GetSample(files: Files, maxSampleSize: int) returns (r: Outcome<Buffer, StageError>, released: seq<ChunkPos>)
    ensures released == Positions(files)[..SampleAsWritten(files, maxSampleSize).releasedCount]
    ensures r.Fail? <==> SampleAsWritten(files, maxSampleSize).result.Fail?
    ensures r.Fail? ==> r.error == SampleAsWritten(files, maxSampleSize).result.error
    ensures r.Done? ==>
      fresh(r.value) && r.value.Valid() && r.value.Capacity() == maxSampleSize &&
      r.value.Contents() == SampleAsWritten(files, maxSampleSize).result.value
  {
    if maxSampleSize < 0 {
      return Fail(AllocationError), [];
    }
    var sample := new Buffer.Allocate(maxSampleSize);
    var sampleSize: nat := 0;
    released := [];
    for f := 0 to |files|
      invariant sample.data.Length == maxSampleSize && sampleSize <= maxSampleSize
      invariant CopyWhole(Chunks(files[..f]), maxSampleSize) == Copied(sample.data[..sampleSize])
      invariant released == Positions(files[..f])
    {
      var ok;
      ghost var failedAt;
      ok, sampleSize, released, failedAt := DrainFile(sample, files[f], f, sampleSize, Chunks(files[..f]), released);
      if !ok {
        StraddleInFile(files, f, failedAt, maxSampleSize);
        return Fail(BoundsError), released;
      }
      FilesSnoc(files, f);
    }
    assert files[..|files|] == files;
    if sampleSize == 0 {
      return Fail(NoInputBuffer), released;
    }
    sample.SetLimit(sampleSize);
    r := Done(sample);
  }

  /** Releasing chunk `c` of file `f` extends the release log by its position. */
  lemma ReleaseStep(base: seq<ChunkPos>, f: nat, c: nat)
    ensures base + FilePositions(f, c) + [ChunkPos(f, c)] == base + FilePositions(f, c + 1)
  {
    assert FilePositions(f, c) + [ChunkPos(f, c)] == FilePositions(f, c + 1);
  }

  /** One chunk of the corrected collector on the buffer: as much of the
      chunk as still fits is copied after the first `size` bytes. */
  method CopyChunkTruncated(sample: Buffer, size: nat, chunk: seq<byte>) returns (size': nat)
    requires size <= sample.data.Length
    modifies sample.data
    ensures size' <= sample.data.Length
    ensures TruncatedStep(old(sample.data[..size]), chunk, sample.data.Length) == sample.data[..size']
  {
    size' := size;
    if size < sample.data.Length {
      ghost var before := sample.data[..];
      var part := chunk[..Min(|chunk|, sample.data.Length - size)];
      var copied := sample.SetBytes(size, part);
      assert copied;
      WrittenPrefix(before, sample.data[..], size, part);
      size' := size + |part|;
    }
  }

  /** The corrected inner loop over the chunks of file `f`, after the
      chunks `prefix` of the earlier files: a chunk that does not fit is
      copied up to the capacity, and every chunk is released. */
  method DrainFileTruncated(sample: Buffer, chunks: seq<seq<byte>>, f: nat, sampleSize: nat,
                            ghost prefix: seq<seq<byte>>, released: seq<ChunkPos>)
    returns (size: nat, released': seq<ChunkPos>)
    requires sampleSize <= sample.data.Length
    requires CopyTruncating(prefix, sample.data.Length) == sample.data[..sampleSize]
    modifies sample.data
    ensures size <= sample.data.Length
    ensures CopyTruncating(prefix + chunks, sample.data.Length) == sample.data[..size]
    ensures released' == released + FilePositions(f, |chunks|)
  {
    var max := sample.data.Length;
    size, released' := sampleSize, released;
    assert prefix + chunks[..0] == prefix;
    for c := 0 to |chunks|
      invariant size <= max
      invariant CopyTruncating(prefix + chunks[..c], max) == sample.data[..size]
      invariant released' == released + FilePositions(f, c)
    {
      var chunk := chunks[c];
      ghost var xs := prefix + chunks[..c];
      assert xs + [chunk] == prefix + chunks[..c + 1];
      ReleaseStep(released, f, c);
      CopyTruncatingSnoc(xs, chunk, max);
      size := CopyChunkTruncated(sample, size, chunk);
      released' := released' + [ChunkPos(f, c)];
    }
    assert chunks[..|chunks|] == chunks;
  }

  /** `getSample` with a straddling chunk truncated to the room left: every
      chunk is released, and the sample holds the first bytes of the input. */
  method GetSampleTruncated(files: Files, maxSampleSize: int) returns (r: Outcome<Buffer, StageError>, released: seq<ChunkPos>)
    ensures released == if maxSampleSize < 0 then [] else Positions(files)
    ensures r.Fail? <==> SampleTruncated(files, maxSampleSize).Fail?
    ensures r.Fail? ==> r.error == SampleTruncated(files, maxSampleSize).error
    ensures r.Done? ==>
      fresh(r.value) && r.value.Valid() && r.value.Capacity() == maxSampleSize &&
      r.value.Contents() == SampleTruncated(files, maxSampleSize).value
  {
    if maxSampleSize < 0 {
      return Fail(AllocationError), [];
    }
    var sample := new Buffer.Allocate(maxSampleSize);
    var sampleSize: nat := 0;
    released := [];
    for f := 0 to |files|
      invariant sample.data.Length == maxSampleSize && sampleSize <= maxSampleSize
      invariant CopyTruncating(Chunks(files[..f]), maxSampleSize) == sample.data[..sampleSize]
      invariant released == Positions(files[..f])
    {
      sampleSize, released := DrainFileTruncated(sample, files[f], f, sampleSize, Chunks(files[..f]), released);
      FilesSnoc(files, f);
    }
    assert files[..|files|] == files;
    if sampleSize == 0 {
      return Fail(NoInputBuffer), released;
    }
    sample.SetLimit(sampleSize);
    r := Done(sample);
  }

  /** Outputs merged in order into a fresh configuration. */
  function MergeAll(outputs: seq<Config>): (r: Config)
    ensures (forall i :: 0 <= i < |outputs| ==> outputs[i].Obj?) ==> r.Obj?
  {
    if |outputs| == 0 then Empty()
    else Merge(MergeAll(outputs[..|outputs| - 1]), outputs[|outputs| - 1])
  }

  /** Merging objects in order gives an object holding exactly the keys that
      some output holds. */
  lemma {:induction false} MergeAllKeys(outputs: seq<Config>)
    requires forall i :: 0 <= i < |outputs| ==> outputs[i].Obj?
    ensures MergeAll(outputs).Obj?
    ensures forall k :: k in MergeAll(outputs).fields <==>
      exists i :: 0 <= i < |outputs| && k in outputs[i].fields
  {
    if |outputs| > 0 {
      var n := |outputs| - 1;
      var pre := outputs[..n];
      MergeAllKeys(pre);
      forall k | k in MergeAll(outputs).fields
        ensures exists i :: 0 <= i < |outputs| && k in outputs[i].fields
      {
        if k !in outputs[n].fields {
          var i :| 0 <= i < |pre| && k in pre[i].fields;
          assert outputs[i] == pre[i];
        }
      }
      forall k | exists i :: 0 <= i < |outputs| && k in outputs[i].fields
        ensures k in MergeAll(outputs).fields
      {
        var i :| 0 <= i < |outputs| && k in outputs[i].fields;
        if i < n {
          assert pre[i] == outputs[i];
        }
      }
    }
  }

  /** A later strategy's scalar or array value at a key overrides every
      earlier strategy's value there. */
  lemma {:induction false} LaterStrategyWins(outputs: seq<Config>, j: nat, k: string)
    requires forall i :: 0 <= i < |outputs| ==> outputs[i].Obj?
    requires j < |outputs| && k in outputs[j].fields && !outputs[j].fields[k].Obj?
    requires forall i :: j < i < |outputs| ==> k !in outputs[i].fields
    ensures k in MergeAll(outputs).fields && MergeAll(outputs).fields[k] == outputs[j].fields[k]
  {
    var n := |outputs| - 1;
    var pre := outputs[..n];
    assert forall i :: 0 <= i < |pre| ==> pre[i] == outputs[i];
    MergeAllKeys(pre);
    assert MergeAll(outputs) == Merge(MergeAll(pre), outputs[n]);
    if j < n {
      LaterStrategyWins(pre, j, k);
    }
    MergeFieldRules(MergeAll(pre), outputs[n], k);
  }

  /** The fold of `runBasicParser`: each strategy's output merged in list
      order into a fresh configuration, stopping at the first strategy that
      fails. */
  function MergeStrategies(strategies: seq<Strategy>, config: Config, sample: seq<byte>): Outcome<Config, StageError>
  {
    if |strategies| == 0 then Done(Empty())
    else
      match MergeStrategies(strategies[..|strategies| - 1], config, sample)
      case Fail(e) => Fail(e)
      case Done(guessed) =>
        match strategies[|strategies| - 1](config, sample)
        case Fail(e) => Fail(e)
        case Done(output) => Done(Merge(guessed, output))
  }

  /** The outputs of strategies that all succeed, in list order. */
  function Outputs(strategies: seq<Strategy>, config: Config, sample: seq<byte>): seq<Config>
    requires forall i :: 0 <= i < |strategies| ==> strategies[i](config, sample).Done?
  {
    seq(|strategies|, i requires 0 <= i < |strategies| => strategies[i](config, sample).value)
  }

  /** The fold succeeds exactly when every strategy does. */
  lemma {:induction false} MergeStrategiesDone(strategies: seq<Strategy>, config: Config, sample: seq<byte>)
    ensures MergeStrategies(strategies, config, sample).Done? <==>
      forall i :: 0 <= i < |strategies| ==> strategies[i](config, sample).Done?
  {
    if |strategies| > 0 {
      var pre := strategies[..|strategies| - 1];
      MergeStrategiesDone(pre, config, sample);
      assert forall i :: 0 <= i < |pre| ==> pre[i] == strategies[i];
    }
  }

  /** When every strategy succeeds, the fold is the merge of their outputs
      in order. */
  lemma {:induction false} MergeStrategiesValue(strategies: seq<Strategy>, config: Config, sample: seq<byte>)
    requires forall i :: 0 <= i < |strategies| ==> strategies[i](config, sample).Done?
    ensures MergeStrategies(strategies, config, sample) == Done(MergeAll(Outputs(strategies, config, sample)))
  {
    if |strategies| > 0 {
      var n := |strategies| - 1;
      var pre := strategies[..n];
      assert forall i :: 0 <= i < n ==> pre[i] == strategies[i];
      MergeStrategiesValue(pre, config, sample);
      assert Outputs(strategies, config, sample)[..n] == Outputs(pre, config, sample);
    }
  }

  /** A failing fold fails with the error of a strategy before which every
      strategy succeeded. */
  lemma {:induction false} MergeStrategiesFirstFailure(strategies: seq<Strategy>, config: Config, sample: seq<byte>)
    requires MergeStrategies(strategies, config, sample).Fail?
    ensures exists i :: 0 <= i < |strategies| && strategies[i](config, sample) == Fail(MergeStrategies(strategies, config, sample).error) &&
                        forall j :: 0 <= j < i ==> strategies[j](config, sample).Done?
  {
    var n := |strategies| - 1;
    var pre := strategies[..n];
    var e := MergeStrategies(strategies, config, sample).error;
    if MergeStrategies(pre, config, sample).Fail? {
      MergeStrategiesFirstFailure(pre, config, sample);
      var i :| 0 <= i < n && pre[i](config, sample) == Fail(e) &&
        forall j :: 0 <= j < i ==> pre[j](config, sample).Done?;
      assert forall j :: 0 <= j < i ==> pre[j] == strategies[j];
      assert strategies[i](config, sample) == Fail(e);
    } else {
      MergeStrategiesDone(pre, config, sample);
      assert forall j :: 0 <= j < n ==> pre[j] == strategies[j];
      assert strategies[n](config, sample) == Fail(e);
    }
  }

  /** The fold succeeds exactly when every strategy does, and then it is the
      merge of their outputs in order; otherwise it fails with the error of
      the first strategy that fails. */
  lemma MergeStrategiesMeaning(strategies: seq<Strategy>, config: Config, sample: seq<byte>)
    ensures MergeStrategies(strategies, config, sample).Done? <==>
      forall i :: 0 <= i < |strategies| ==> strategies[i](config, sample).Done?
    ensures MergeStrategies(strategies, config, sample).Done? ==>
      MergeStrategies(strategies, config, sample).value == MergeAll(Outputs(strategies, config, sample))
    ensures MergeStrategies(strategies, config, sample).Fail? ==>
      exists i :: 0 <= i < |strategies| && strategies[i](config, sample) == Fail(MergeStrategies(strategies, config, sample).error) &&
        forall j :: 0 <= j < i ==> strategies[j](config, sample).Done?
  {
    MergeStrategiesDone(strategies, config, sample);
    if MergeStrategies(strategies, config, sample).Done? {
      MergeStrategiesValue(strategies, config, sample);
    } else {
      MergeStrategiesFirstFailure(strategies, config, sample);
    }
  }

  /** Once a prefix of the strategies has failed, the rest change nothing. */
  lemma {:induction false} MergeStrategiesFailSticks(strategies: seq<Strategy>, k: nat, config: Config, sample: seq<byte>)
    requires k <= |strategies|
    requires MergeStrategies(strategies[..k], config, sample).Fail?
    ensures MergeStrategies(strategies, config, sample) == MergeStrategies(strategies[..k], config, sample)
  {
    if k < |strategies| {
      var pre := strategies[..|strategies| - 1];
      assert pre[..k] == strategies[..k];
      MergeStrategiesFailSticks(pre, k, config, sample);
    } else {
      assert strategies[..k] == strategies;
    }
  }

  /** How the guess parser ends the transaction: with the signal carrying
      the merged strategy outputs, or with the failure of the sample or of a
      strategy. */
  function GuessParserResult(files: Files, maxSampleSize: int, config: Config, strategies: seq<Strategy>): (r: TransactionResult)
    ensures r.Signalled? || r.Failed?
    ensures SampleTruncated(files, maxSampleSize).Fail? ==> r == Failed(SampleTruncated(files, maxSampleSize).error)
    ensures SampleTruncated(files, maxSampleSize).Done? ==>
      var merged := MergeStrategies(strategies, config, SampleTruncated(files, maxSampleSize).value);
      (r.Signalled? <==> merged.Done?) &&
      (r.Signalled? ==> r.parserConfig == merged.value) &&
      (r.Failed? ==> r.error == merged.error)
  {
    match SampleTruncated(files, maxSampleSize)
    case Fail(e) => Failed(e)
    case Done(sample) =>
      match MergeStrategies(strategies, config, sample)
      case Fail(e) => Failed(e)
      case Done(guessed) => Signalled(guessed)
  }

  /** How the guess parser as written ends the transaction: the sample of
      `getSample` as written, and then the same strategy fold. */
  function GuessParserResultAsWritten(files: Files, maxSampleSize: int, config: Config, strategies: seq<Strategy>): (r: TransactionResult)
    ensures r.Signalled? || r.Failed?
    ensures SampleAsWritten(files, maxSampleSize).result.Fail? ==>
      r == Failed(SampleAsWritten(files, maxSampleSize).result.error)
    ensures SampleAsWritten(files, maxSampleSize).result.Done? ==>
      var merged := MergeStrategies(strategies, config, SampleAsWritten(files, maxSampleSize).result.value);
      (r.Signalled? <==> merged.Done?) &&
      (r.Signalled? ==> r.parserConfig == merged.value) &&
      (r.Failed? ==> r.error == merged.error)
  {
    match SampleAsWritten(files, maxSampleSize).result
    case Fail(e) => Failed(e)
    case Done(sample) =>
      match MergeStrategies(strategies, config, sample)
      case Fail(e) => Failed(e)
      case Done(guessed) => Signalled(guessed)
  }

  /** On the input of `StraddlingChunkFailsSample` the stage as written fails
      with the bounds error, whatever the strategies, while the corrected
      stage goes on to the strategies over the first four bytes. */
  lemma StraddlingChunkFailsStage(config: Config, strategies: seq<Strategy>)
    ensures GuessParserResultAsWritten([[[1, 2, 3], [4, 5, 6]]], 4, config, strategies) == Failed(BoundsError)
    ensures GuessParserResult([[[1, 2, 3], [4, 5, 6]]], 4, config, strategies) ==
      match MergeStrategies(strategies, config, [1, 2, 3, 4])
      case Fail(e) => Failed(e)
      case Done(guessed) => Signalled(guessed)
  {
    StraddlingChunkFailsSample();
  }

  /** `runBasicParser` as written: the sample of `getSample` as written,
      then the strategy loop and the guess signal. A failing sample ends it
      with the chunks released up to where the sample stopped. */
  method RunBasicParserAsWritten(files: Files, maxSampleSize: int, config: Config, strategies: seq<Strategy>)
    returns (r: TransactionResult, released: seq<ChunkPos>)
    ensures r.Signalled? || r.Failed?
    ensures r == GuessParserResultAsWritten(files, maxSampleSize, config, strategies)
    ensures released == Positions(files)[..SampleAsWritten(files, maxSampleSize).releasedCount]
  {
    var sample;
    sample, released := GetSample(files, maxSampleSize);
    if sample.Fail? {
      return Failed(sample.error), released;
    }
    var bytes := sample.value.data[..sample.value.limit];
    assert bytes == SampleAsWritten(files, maxSampleSize).result.value;
    var guessed := FoldStrategies(strategies, config, bytes);
    r := if guessed.Fail? then Failed(guessed.error) else Signalled(guessed.value);
  }

  /** `runBasicParser`: collect the sample, merge the strategies' outputs in
      list order into a fresh configuration, and raise the guess signal with
      it; a failing sample or strategy ends it with that failure, and it
      never returns normally. */
  method RunBasicParser(files: Files, maxSampleSize: int, config: Config, strategies: seq<Strategy>)
    returns (r: TransactionResult, released: seq<ChunkPos>)
    ensures r.Signalled? || r.Failed?
    ensures r == GuessParserResult(files, maxSampleSize, config, strategies)
    ensures released == if maxSampleSize < 0 then [] else Positions(files)
  {
    var sample;
    sample, released := GetSampleTruncated(files, maxSampleSize);
    if sample.Fail? {
      return Failed(sample.error), released;
    }
    var bytes := sample.value.data[..sample.value.limit];
    assert bytes == SampleTruncated(files, maxSampleSize).value;
    var guessed := FoldStrategies(strategies, config, bytes);
    r := if guessed.Fail? then Failed(guessed.error) else Signalled(guessed.value);
  }

  /** The strategy loop of `runBasicParser`: each output merged in list
      order into a fresh configuration; a failing strategy ends the loop. */
  method FoldStrategies(strategies: seq<Strategy>, config: Config, sample: seq<byte>)
    returns (r: Outcome<Config, StageError>)
    ensures r == MergeStrategies(strategies, config, sample)
  {
    var guessed := Empty();
    for i := 0 to |strategies|
      invariant MergeStrategies(strategies[..i], config, sample) == Done(guessed)
    {
      assert strategies[..i + 1][..i] == strategies[..i];
      var output := strategies[i](config, sample);
      if output.Fail? {
        MergeStrategiesFailSticks(strategies, i + 1, config, sample);
        return Fail(output.error);
      }
      guessed := Merge(guessed, output.value);
    }
    assert strategies[..|strategies|] == strategies;
    r := Done(guessed);
  }
}
