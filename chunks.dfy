/** Chunk accounting of one download (internal/downloader/downloader.go).

    The total size is split into `MaxChunks` chunks, used for progress display only: every chunk
    but the last gets the truncated quotient, the last one the remainder. After each copied block
    the chunks are scanned in order; a chunk whose own size is at most the running byte count is
    marked complete, the first chunk that is larger gets the ratio of the running count to its
    size, and the scan stops there. The test is against the chunk's own size, not against the
    offset at which the chunk starts: that is how the source is written and it is kept here. */
module Chunks {
  import opened Common

  /** One `ChunkInfo` record. Progress is a plain ratio. */
  datatype Chunk = Chunk(id: int, size: int, progress: real)

  /** Sum of the sizes of a chunk sequence. */
  function TotalSize(cs: seq<Chunk>): int
  {
    if cs == [] then 0 else cs[0].size + TotalSize(cs[1..])
  }

  /** The chunk table built when a transfer starts: `n` chunks numbered 1..n with progress 0,
      all of size totalSize/n (truncated) except the last, which takes what is left. */
  function InitialChunks(totalSize: int, n: int): (cs: seq<Chunk>)
    requires n >= 1
    ensures |cs| == n
  {
    var q := TruncDiv(totalSize, n);
    seq(n, i requires 0 <= i < n => Chunk(i + 1, if i < n - 1 then q else totalSize - q * (n - 1), 0.0))
  }

  /** Builds the chunk array the way the source does: fill every slot with the quotient, then
      overwrite the size of the last one. A chunk count below 1 makes the source fail (division
      by zero, or a slice of negative length), so callers must provide at least one. */
  method NewChunks(totalSize: int, maxChunks: int) returns (chunks: array<Chunk>)
    requires maxChunks >= 1
    ensures fresh(chunks)
    ensures chunks[..] == InitialChunks(totalSize, maxChunks)
  {
    var chunkSize := TruncDiv(totalSize, maxChunks);
    chunks := new Chunk[maxChunks];
    for i := 0 to maxChunks
      invariant forall j :: 0 <= j < i ==> chunks[j] == Chunk(j + 1, chunkSize, 0.0)
    {
      chunks[i] := Chunk(i + 1, chunkSize, 0.0);
    }
    chunks[maxChunks - 1] := chunks[maxChunks - 1].(size := totalSize - chunkSize * (maxChunks - 1));
  }

  lemma {:induction false} TotalSizeAppend(a: seq<Chunk>, b: seq<Chunk>)
    ensures TotalSize(a + b) == TotalSize(a) + TotalSize(b)
  {
    if a != [] {
      assert (a + b)[1..] == a[1..] + b;
      TotalSizeAppend(a[1..], b);
    } else {
      assert a + b == b;
    }
  }

  lemma {:induction false} TotalSizeUniform(cs: seq<Chunk>, q: int)
    requires forall i :: 0 <= i < |cs| ==> cs[i].size == q
    ensures TotalSize(cs) == |cs| * q
  {
    if cs != [] {
      TotalSizeUniform(cs[1..], q);
    }
  }

  /** The chunk sizes add up exactly to the total size, whatever its sign. */
  lemma InitialChunksSumToTotal(totalSize: int, n: int)
    requires n >= 1
    ensures TotalSize(InitialChunks(totalSize, n)) == totalSize
  {
    var cs := InitialChunks(totalSize, n);
    var q := TruncDiv(totalSize, n);
    assert cs == cs[..n - 1] + [cs[n - 1]];
    TotalSizeAppend(cs[..n - 1], [cs[n - 1]]);
    TotalSizeUniform(cs[..n - 1], q);
  }

  /** Every chunk but the last has the truncated quotient as its size; for a non-negative total
      the last one lies between the quotient and the quotient plus n - 1, so no size is
      negative. The ids run from 1 to n and every progress starts at 0. */
  lemma InitialChunksShape(totalSize: int, n: int)
    requires n >= 1
    ensures var cs := InitialChunks(totalSize, n);
      && (forall i :: 0 <= i < n ==> cs[i].id == i + 1 && cs[i].progress == 0.0)
      && (forall i :: 0 <= i < n - 1 ==> cs[i].size == TruncDiv(totalSize, n))
      && (totalSize >= 0 ==>
            TruncDiv(totalSize, n) <= cs[n - 1].size < TruncDiv(totalSize, n) + n
            && forall i :: 0 <= i < n ==> cs[i].size >= 0)
  {
    LastChunkBounds(totalSize, n);
  }

  /** For a non-negative total the quotient is non-negative and the last chunk is the quotient
      plus the remainder. */
  lemma LastChunkBounds(totalSize: int, n: int)
    requires n >= 1
    ensures var q := TruncDiv(totalSize, n);
      totalSize >= 0 ==> 0 <= q <= totalSize - q * (n - 1) < q + n
  {
    var q := TruncDiv(totalSize, n);
    if totalSize >= 0 {
      var r := totalSize - q * n;
      assert q * (n - 1) == q * n - q;
      assert totalSize - q * (n - 1) == q + r;
    }
  }

  /** Index of the first chunk whose own size exceeds `downloaded` (|cs| when there is none):
      the place where the progress scan stops. */
  function StopIndex(cs: seq<Chunk>, downloaded: int): (k: nat)
    ensures k <= |cs|
    ensures forall j :: 0 <= j < k ==> cs[j].size <= downloaded
    ensures k < |cs| ==> cs[k].size > downloaded
  {
    if cs == [] then 0
    else if cs[0].size <= downloaded then 1 + StopIndex(cs[1..], downloaded)
    else 0
  }

  /** The chunk table after one progress update with running count `downloaded`. */
  function Updated(cs: seq<Chunk>, downloaded: int): (r: seq<Chunk>)
    requires downloaded >= 0
    ensures |r| == |cs|
    ensures forall i :: 0 <= i < |cs| ==> r[i].id == cs[i].id && r[i].size == cs[i].size
    ensures forall i :: 0 <= i < StopIndex(cs, downloaded) ==> r[i].progress == 1.0
    ensures var k := StopIndex(cs, downloaded);
      k < |cs| ==> r[k].progress == downloaded as real / cs[k].size as real
    ensures forall i :: StopIndex(cs, downloaded) < i < |cs| ==> r[i] == cs[i]
  {
    if cs == [] then []
    else if downloaded >= cs[0].size then [cs[0].(progress := 1.0)] + Updated(cs[1..], downloaded)
    else [cs[0].(progress := downloaded as real / cs[0].size as real)] + cs[1..]
  }

  /** The in-place update loop of the transfer: chunks that the running count covers are set to 1,
      the first one it does not cover gets the ratio, and the loop breaks there. */
  method UpdateChunks(chunks: array<Chunk>, downloaded: int)
    requires downloaded >= 0
    modifies chunks
    ensures chunks[..] == Updated(old(chunks[..]), downloaded)
  {
    ghost var before := chunks[..];
    var i := 0;
    while i < chunks.Length
      invariant 0 <= i <= chunks.Length
      invariant forall j :: 0 <= j < i ==> before[j].size <= downloaded && chunks[j] == before[j].(progress := 1.0)
      invariant forall j :: i <= j < chunks.Length ==> chunks[j] == before[j]
    {
      if downloaded >= chunks[i].size {
        chunks[i] := chunks[i].(progress := 1.0);
      } else {
        chunks[i] := chunks[i].(progress := downloaded as real / chunks[i].size as real);
        break;
      }
      i := i + 1;
    }
    assert StopIndex(before, downloaded) == i;
  }

  /** Sizes decide where the scan stops, so an update (which keeps sizes) does not move it. */
  lemma {:induction false} StopIndexSameSizes(cs: seq<Chunk>, ds: seq<Chunk>, downloaded: int)
    requires |cs| == |ds|
    requires forall i :: 0 <= i < |cs| ==> cs[i].size == ds[i].size
    ensures StopIndex(cs, downloaded) == StopIndex(ds, downloaded)
  {
    if cs != [] && cs[0].size <= downloaded {
      StopIndexSameSizes(cs[1..], ds[1..], downloaded);
    }
  }

  /** A larger running count lets the scan go at least as far. */
  lemma StopIndexMonotone(cs: seq<Chunk>, d: int, d': int)
    requires d <= d'
    ensures StopIndex(cs, d) <= StopIndex(cs, d')
  {
  }

  /** The most progress chunk i may show when `downloaded` bytes have arrived. */
  function Ceiling(cs: seq<Chunk>, downloaded: int, i: int): real
    requires downloaded >= 0
  {
    var k := StopIndex(cs, downloaded);
    if i < k then 1.0
    else if i == k && k < |cs| then downloaded as real / cs[k].size as real
    else 0.0
  }

  /** The invariant of the chunk table during a transfer: no chunk is ahead of what the running
      count allows, and chunks beyond the scan's stopping point are still at 0. */
  ghost predicate Bounded(cs: seq<Chunk>, downloaded: int)
    requires downloaded >= 0
  {
    forall i :: 0 <= i < |cs| ==>
      0.0 <= cs[i].progress <= Ceiling(cs, downloaded, i)
      && (i > StopIndex(cs, downloaded) ==> cs[i].progress == 0.0)
  }

  lemma RatioBelowOne(d: int, s: int)
    requires 0 <= d < s
    ensures 0.0 <= d as real / s as real < 1.0
  {
    assert d as real / s as real * s as real == d as real;
  }

  lemma RatioMonotone(d: int, d': int, s: int)
    requires 0 <= d <= d' && s > 0
    ensures d as real / s as real <= d' as real / s as real
  {
    assert d as real / s as real * s as real == d as real;
    assert d' as real / s as real * s as real == d' as real;
  }

  /** A fresh chunk table satisfies the invariant before any byte has arrived. */
  lemma InitialChunksBounded(totalSize: int, n: int)
    requires n >= 1
    ensures Bounded(InitialChunks(totalSize, n), 0)
  {
    var cs := InitialChunks(totalSize, n);
    var k := StopIndex(cs, 0);
    if k < |cs| {
      RatioBelowOne(0, cs[k].size);
    }
  }

  /** Under the invariant every progress value lies in [0, 1]. */
  lemma BoundedInUnitRange(cs: seq<Chunk>, downloaded: int)
    requires downloaded >= 0 && Bounded(cs, downloaded)
    ensures forall i :: 0 <= i < |cs| ==> 0.0 <= cs[i].progress <= 1.0
  {
    var k := StopIndex(cs, downloaded);
    if k < |cs| {
      RatioBelowOne(downloaded, cs[k].size);
    }
  }

  /** What a chunk may show only grows with the running count. */
  lemma CeilingMonotone(cs: seq<Chunk>, d: int, d': int, i: int)
    requires 0 <= d <= d' && 0 <= i < |cs|
    ensures Ceiling(cs, d, i) <= Ceiling(cs, d', i)
  {
    var k, k' := StopIndex(cs, d), StopIndex(cs, d');
    StopIndexMonotone(cs, d, d');
    if i == k && k < |cs| {
      RatioBelowOne(d, cs[k].size);
      if i == k' {
        RatioMonotone(d, d', cs[k].size);
      }
    }
  }

  /** A step that adds bytes without updating the table (an end-of-stream block) keeps the
      invariant. */
  lemma BoundedAsCountGrows(cs: seq<Chunk>, d: int, d': int)
    requires 0 <= d <= d' && Bounded(cs, d)
    ensures Bounded(cs, d')
  {
    StopIndexMonotone(cs, d, d');
    forall i | 0 <= i < |cs|
      ensures 0.0 <= cs[i].progress <= Ceiling(cs, d', i)
    {
      CeilingMonotone(cs, d, d', i);
    }
  }

  /** An update with a count at least as large as the one the invariant was established for
      keeps the invariant and lowers no chunk's progress. */
  lemma UpdateMonotone(cs: seq<Chunk>, d: int, d': int)
    requires 0 <= d <= d' && Bounded(cs, d)
    ensures Bounded(Updated(cs, d'), d')
    ensures forall i :: 0 <= i < |cs| ==> cs[i].progress <= Updated(cs, d')[i].progress
  {
    var r := Updated(cs, d');
    var k, k' := StopIndex(cs, d), StopIndex(cs, d');
    StopIndexMonotone(cs, d, d');
    StopIndexSameSizes(cs, r, d');
    assert StopIndex(r, d') == k';
    forall i | 0 <= i < |cs|
      ensures cs[i].progress <= r[i].progress
      ensures 0.0 <= r[i].progress <= Ceiling(r, d', i)
    {
      CeilingMonotone(cs, d, d', i);
      if i == k' && k' < |cs| {
        RatioBelowOne(d', cs[i].size);
      }
    }
  }

  /** Right after an update, chunks fill strictly from the left: a chunk with some progress has
      only complete chunks before it. */
  lemma FillsLeftToRight(cs: seq<Chunk>, d: int)
    requires d >= 0 && Bounded(cs, d)
    ensures var r := Updated(cs, d);
      forall i, j :: 0 <= j < i < |r| && r[i].progress > 0.0 ==> r[j].progress == 1.0
  {
  }

  /** A million bytes in five chunks after 450,000 bytes: every chunk's own size (200,000) is
      below the running count, so the source marks all five complete. */
  lemma FiveChunksAfterFourHundredFiftyThousand()
    ensures var r := Updated(InitialChunks(1000000, 5), 450000);
      forall i :: 0 <= i < 5 ==> r[i].progress == 1.0
  {
    var cs := InitialChunks(1000000, 5);
    assert forall i :: 0 <= i < 5 ==> cs[i].size == 200000;
    assert StopIndex(cs, 450000) == 5;
  }
}
