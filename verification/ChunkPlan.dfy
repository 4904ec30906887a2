/** The chunk plan of a parallel download (download.py): how many ranges, and which. */
module ChunkPlan {
  import opened Collections

  /** Configuration: sizes in bytes, at least one mebibyte and one chunk (config.py). */
  datatype Config = Config(enabled: bool, minChunk: int, maxChunks: int)

  predicate ConfigOk(c: Config) {
    c.minChunk >= 1 && c.maxChunks >= 1
  }

  /** Both ends belong to the range, as in a Range header. */
  datatype Range = Range(start: int, end: int)

  function Size(r: Range): int { r.end - r.start + 1 }

  /** `should_use_parallel`; `admitted` is the chunk breaker's answer. */
  predicate UsesParallel(c: Config, fileSize: int, admitted: bool) {
    c.enabled && fileSize >= c.minChunk && admitted
  }

  /** `get_chunk_count` */
  function ChunkCount(c: Config, fileSize: int, admitted: bool): int
    requires c.minChunk != 0
  {
    if !UsesParallel(c, fileSize, admitted) then 1
    else
      var chunks := if fileSize / c.minChunk >= 1 then fileSize / c.minChunk else 1;
      if chunks <= c.maxChunks then chunks else c.maxChunks
  }

  /** The ranges follow one another without gap or overlap, from byte 0 to the end. */
  predicate Tiles(ranges: seq<Range>, fileSize: int) {
    && ranges != []
    && ranges[0].start == 0 && ranges[|ranges| - 1].end == fileSize - 1
    && (forall i | 0 <= i < |ranges| :: ranges[i].start <= ranges[i].end)
    && (forall i | 0 <= i < |ranges| - 1 :: ranges[i + 1].start == ranges[i].end + 1)
  }

  /** One more chunk would be too many, or too small. */
  predicate AsManyAsPossible(c: Config, fileSize: int, count: int) {
    count == c.maxChunks || fileSize < (count + 1) * c.minChunk
  }

  lemma MostChunks(c: Config, fileSize: int, admitted: bool)
    requires ConfigOk(c)
    ensures UsesParallel(c, fileSize, admitted) ==> AsManyAsPossible(c, fileSize, ChunkCount(c, fileSize, admitted))
  {
    if UsesParallel(c, fileSize, admitted) {
      CountBounds(c, fileSize);
      var q := fileSize / c.minChunk;
      assert fileSize == c.minChunk * q + fileSize % c.minChunk;
      assert c.minChunk * (q + 1) == c.minChunk * q + c.minChunk == (q + 1) * c.minChunk;
    }
  }

  /** `create_chunks`: no plan for a single chunk, otherwise the loop over chunk numbers. */
  method CreateChunks(c: Config, fileSize: int, admitted: bool) returns (plan: Option<seq<Range>>)
    requires ConfigOk(c)
    ensures plan.None? <==> !c.enabled || !admitted || fileSize < 2 * c.minChunk || c.maxChunks == 1
    ensures plan.Some? ==>
              var ranges := plan.value;
              && Tiles(ranges, fileSize) && 2 <= |ranges| <= c.maxChunks
              && (forall i | 0 <= i < |ranges| :: Size(ranges[i]) >= c.minChunk)
              && AsManyAsPossible(c, fileSize, |ranges|)
              && (forall i, j | 0 <= i < |ranges| - 1 && 0 <= j < |ranges| ::
                    Size(ranges[i]) <= Size(ranges[j]) < Size(ranges[i]) + |ranges|)
  {
    hide AsManyAsPossible, Tiles;
    var count := ChunkCount(c, fileSize, admitted);
    MostChunks(c, fileSize, admitted);
    if UsesParallel(c, fileSize, admitted) {
      CountBounds(c, fileSize);
    }
    if count <= 1 {
      return None;
    }
    var chunkSize := fileSize / count;
    ShareBounds(fileSize, count, c.minChunk);
    var ranges: seq<Range> := [];
    for i := 0 to count
      invariant |ranges| == i && forall k | 0 <= k < i :: ranges[k] == Share(k, count, chunkSize, fileSize)
    {
      var start := i * chunkSize;
      var end := if i < count - 1 then start + chunkSize - 1 else fileSize - 1;
      ranges := ranges + [Range(start, end)];
    }
    SharesTile(ranges, count, chunkSize, fileSize);
    return Some(ranges);
  }

  function Share(k: int, count: int, chunkSize: int, fileSize: int): Range {
    Range(k * chunkSize, if k < count - 1 then k * chunkSize + chunkSize - 1 else fileSize - 1)
  }

  lemma SharesTile(ranges: seq<Range>, count: int, chunkSize: int, fileSize: int)
    requires |ranges| == count >= 2 && forall k | 0 <= k < count :: ranges[k] == Share(k, count, chunkSize, fileSize)
    requires chunkSize >= 1 && count * chunkSize <= fileSize < count * chunkSize + count
    ensures Tiles(ranges, fileSize)
    ensures forall k | 0 <= k < count - 1 :: Size(ranges[k]) == chunkSize
    ensures chunkSize <= Size(ranges[count - 1]) < chunkSize + count
  {
    forall i | 0 <= i < count - 1
      ensures ranges[i + 1].start == ranges[i].end + 1
    {
      assert (i + 1) * chunkSize == i * chunkSize + chunkSize;
    }
    assert (count - 1) * chunkSize + chunkSize == count * chunkSize;
  }

  lemma Scale(factor: int, x: int, y: int)
    requires factor >= 1
    ensures x <= y <==> factor * x <= factor * y
  {
    if x < y {
      assert factor * (y - x) >= 1 * (y - x);
    } else if y < x {
      assert factor * (x - y) >= 1 * (x - y);
    }
    assert factor * (y - x) == factor * y - factor * x;
  }

  lemma CountBounds(c: Config, fileSize: int)
    requires ConfigOk(c) && fileSize >= c.minChunk
    ensures fileSize / c.minChunk >= 1
    ensures fileSize >= 2 * c.minChunk <==> fileSize / c.minChunk >= 2
    ensures forall n | 1 <= n <= fileSize / c.minChunk :: n * c.minChunk <= fileSize
  {
    var q := fileSize / c.minChunk;
    assert fileSize == c.minChunk * q + fileSize % c.minChunk;
    Scale(c.minChunk, 1, q + 1);
    Scale(c.minChunk, 2, q);
    Scale(c.minChunk, q + 1, 1);
    Scale(c.minChunk, q + 1, 2);
    assert c.minChunk * (q + 1) == c.minChunk * q + c.minChunk;
    forall n | 1 <= n <= q ensures n * c.minChunk <= fileSize {
      Scale(c.minChunk, n, q);
    }
  }

  lemma ShareBounds(fileSize: int, count: int, minChunk: int)
    requires count >= 1 && minChunk >= 1 && count * minChunk <= fileSize
    ensures fileSize / count >= minChunk
    ensures count * (fileSize / count) <= fileSize < count * (fileSize / count) + count
  {
    var q := fileSize / count;
    assert fileSize == count * q + fileSize % count;
    Scale(count, q + 1, minChunk);
    assert count * (q + 1) == count * q + count;
  }

  /** In a tiling, later ranges start after earlier ones end. */
  lemma {:induction false} TilesOrdered(ranges: seq<Range>, fileSize: int, i: nat, j: nat)
    requires Tiles(ranges, fileSize) && i < j < |ranges|
    ensures ranges[i].end < ranges[j].start
    decreases j
  {
    if i < j - 1 {
      TilesOrdered(ranges, fileSize, i, j - 1);
    }
  }

  /** Every byte of the file lies in exactly one range. */
  lemma TilesPartition(ranges: seq<Range>, fileSize: int, byte: int)
    requires Tiles(ranges, fileSize) && 0 <= byte < fileSize
    ensures exists i :: 0 <= i < |ranges| && ranges[i].start <= byte <= ranges[i].end
    ensures forall i, j | 0 <= i < |ranges| && 0 <= j < |ranges|
                          && ranges[i].start <= byte <= ranges[i].end
                               && ranges[j].start <= byte <= ranges[j].end :: i == j
  {
    var k := FindRange(ranges, fileSize, byte, 0);
    forall i, j | 0 <= i < |ranges| && 0 <= j < |ranges|
                  && ranges[i].start <= byte <= ranges[i].end && ranges[j].start <= byte <= ranges[j].end
      ensures i == j
    {
      if i < j { TilesOrdered(ranges, fileSize, i, j); }
      if j < i { TilesOrdered(ranges, fileSize, j, i); }
    }
  }

  lemma {:induction false} FindRange(ranges: seq<Range>, fileSize: int, byte: int, from: nat) returns (i: nat)
    requires Tiles(ranges, fileSize) && from < |ranges| && ranges[from].start <= byte < fileSize
    ensures i < |ranges| && ranges[i].start <= byte <= ranges[i].end
    decreases |ranges| - from
  {
    if byte <= ranges[from].end {
      i := from;
    } else {
      assert from < |ranges| - 1;
      i := FindRange(ranges, fileSize, byte, from + 1);
    }
  }
}
