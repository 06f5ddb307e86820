/** `split_audio` (src/video_analyst/ingestion.py): cut a decoded audio
    track of `total` milliseconds into `ceil(total / L)` consecutive slices
    of at most `L` milliseconds, each written next to the source file as
    `<stem>_part<i>.flac`. Decoding and encoding are left out: the decoded
    length is an input (absent when decoding fails) and a chunk is described
    by its bounds and its path. */
module Chunking {
  import opened Outcomes
  import Decimal
  import Paths

  const DefaultChunkLengthMs: int := 10 * 60 * 1000

  /** The errors `split_audio` raises: the source file does not decode, or the
      chunk length is zero (Python's `ZeroDivisionError`). */
  datatype SplitError = LoadFailed | ZeroChunkLength

  /** One planned slice `[startMs, endMs)` of the track and the file it goes to. */
  datatype Chunk = Chunk(index: nat, startMs: nat, endMs: nat, path: string)

  function Min(a: int, b: int): int {
    if a <= b then a else b
  }

  /** `math.ceil(total / chunkLength)` floored at zero, the number of times
      `range` iterates. A negative length gives a non-positive quotient and
      so no chunks. */
  function ChunkCount(total: nat, chunkLength: int): (n: nat)
    requires chunkLength != 0
    ensures chunkLength < 0 ==> n == 0
    ensures chunkLength > 0 ==> n * chunkLength >= total
    ensures chunkLength > 0 && n > 0 ==> (n - 1) * chunkLength < total
    ensures n == 0 <==> total == 0 || chunkLength < 0
  {
    if chunkLength < 0 then 0
    else
      var n := (total + chunkLength - 1) / chunkLength;
      CeilingBounds(total, chunkLength);
      n
  }

  lemma CeilingBounds(total: nat, l: int)
    requires l > 0
    ensures var n := (total + l - 1) / l;
            n * l >= total && (n > 0 ==> (n - 1) * l < total) && (n == 0 <==> total == 0)
  {
    var a := total + l - 1;
    var n := a / l;
    var r := a % l;
    assert a == n * l + r && 0 <= r < l;
    assert (n - 1) * l == n * l - l;
  }

  /** `f"{stem}_part{i}.flac"`. */
  function ChunkName(stem: string, i: nat): string {
    stem + "_part" + Decimal.Digits(i) + ".flac"
  }

  /** `str(parent / f"{stem}_part{i}.flac")`. */
  function ChunkPath(parent: string, stem: string, i: nat): (p: string)
    ensures Paths.JoinedAs(p, parent, stem + "_part" + Decimal.Digits(i) + ".flac")
  {
    Paths.Join(parent, ChunkName(stem, i))
  }

  /** The chunk plan of a `total`-millisecond track: chunk `i` covers
      `[i * L, min((i + 1) * L, total))` and goes to `ChunkPath(parent, stem, i)`. */
  function PlanChunks(parent: string, stem: string, total: nat, chunkLength: int): (r: seq<Chunk>)
    requires chunkLength != 0
    ensures |r| == ChunkCount(total, chunkLength)
    ensures forall i :: 0 <= i < |r| ==> r[i].index == i && r[i].path == ChunkPath(parent, stem, i)
    ensures forall i :: 0 <= i < |r| ==> r[i].startMs == i * chunkLength
    ensures forall i :: 0 <= i < |r| ==> r[i].endMs == Min((i + 1) * chunkLength, total)
  {
    if chunkLength < 0 then []
    else
      seq(ChunkCount(total, chunkLength),
          i requires 0 <= i => Chunk(i, i * chunkLength, Min((i + 1) * chunkLength, total), ChunkPath(parent, stem, i)))
  }

  /** `split_audio(parent / f"{stem}.flac", chunkLength)`, where `decoded` is
      the decoded length in milliseconds, or `None` when decoding fails. */
  function SplitAudio(parent: string, stem: string, decoded: Option<nat>, chunkLength: int): (r: Result<seq<Chunk>, SplitError>)
    ensures decoded.None? <==> r == Failure(LoadFailed)
    ensures decoded.Some? && chunkLength == 0 <==> r == Failure(ZeroChunkLength)
    ensures r.Success? ==> r.value == PlanChunks(parent, stem, decoded.value, chunkLength)
  {
    match decoded
    case None => Failure(LoadFailed)
    case Some(total) =>
      if chunkLength == 0 then Failure(ZeroChunkLength)
      else Success(PlanChunks(parent, stem, total, chunkLength))
  }

  /** Multiplying by a positive length preserves order. */
  lemma MulMonotone(a: int, b: int, l: int)
    requires a <= b && l > 0
    ensures a * l <= b * l
  {
    assert b * l - a * l == (b - a) * l;
  }

  /** The chunks tile the track: the first starts at 0, each ends where the
      next starts, the last ends at `total`, and there are none exactly when
      the track is empty. */
  lemma PlanTiles(parent: string, stem: string, total: nat, chunkLength: int)
    requires chunkLength > 0
    ensures var r := PlanChunks(parent, stem, total, chunkLength);
            && (|r| == 0 <==> total == 0)
            && (|r| > 0 ==> r[0].startMs == 0 && r[|r| - 1].endMs == total)
            && forall i :: 0 <= i < |r| - 1 ==> r[i].endMs == r[i + 1].startMs
  {
    var r := PlanChunks(parent, stem, total, chunkLength);
    var n := |r|;
    forall i | 0 <= i < n - 1
      ensures r[i].endMs == r[i + 1].startMs
    {
      MulMonotone(i + 1, n - 1, chunkLength);
    }
    if n > 0 {
      MulMonotone(n - 1 + 1, n, chunkLength);
    }
  }

  /** Slice `i` of `n = ChunkCount(total, l)` starts inside the track and
      is between 1 and `l` milliseconds long. */
  lemma SliceLength(total: nat, l: int, i: nat)
    requires l > 0 && i < ChunkCount(total, l)
    ensures i * l < total
    ensures 0 < Min((i + 1) * l, total) - i * l <= l
  {
    var n := ChunkCount(total, l);
    MulMonotone(i, n - 1, l);
    assert (i + 1) * l == i * l + l;
  }

  /** The last slice holds the remainder, or a full `l` when `l` divides `total`. */
  lemma LastSliceLength(total: nat, l: int)
    requires l > 0 && ChunkCount(total, l) > 0
    ensures var n := ChunkCount(total, l);
            Min(n * l, total) - (n - 1) * l == if total % l == 0 then l else total % l
  {
    var n := ChunkCount(total, l);
    var q := total / l;
    var m := total % l;
    assert total == q * l + m;
    assert (n - 1) * l == n * l - l;
    if m == 0 {
      assert (q - 1) * l == q * l - l;
      CeilingUnique(total, l, n, q);
    } else {
      assert (q + 1) * l == q * l + l;
      CeilingUnique(total, l, n, q + 1);
    }
  }

  /** Every chunk is non-empty and at most `L` milliseconds long; the last one
      holds the remainder `total % L`, or a full `L` when `L` divides `total`. */
  lemma PlanChunkLengths(parent: string, stem: string, total: nat, chunkLength: int)
    requires chunkLength > 0
    ensures var r := PlanChunks(parent, stem, total, chunkLength);
            && (forall i :: 0 <= i < |r| ==> 0 < r[i].endMs - r[i].startMs <= chunkLength)
            && (|r| > 0 ==> r[|r| - 1].endMs - r[|r| - 1].startMs == if total % chunkLength == 0 then chunkLength else total % chunkLength)
  {
    var r := PlanChunks(parent, stem, total, chunkLength);
    forall i | 0 <= i < |r|
      ensures 0 < r[i].endMs - r[i].startMs <= chunkLength
    {
      SliceLength(total, chunkLength, i);
    }
    if |r| > 0 {
      LastSliceLength(total, chunkLength);
    }
  }

  /** The ceiling is the only count that covers `total` and whose predecessor does not. */
  lemma CeilingUnique(total: nat, l: int, n: nat, m: nat)
    requires l > 0 && total > 0
    requires n * l >= total && (n - 1) * l < total
    requires m * l >= total && (m - 1) * l < total
    ensures n == m
  {
    if n < m {
      MulMonotone(n, m - 1, l);
    } else if m < n {
      MulMonotone(m, n - 1, l);
    }
  }

  /** Every millisecond `t` of the track lies in chunk `t / L`. */
  lemma PlanCovers(parent: string, stem: string, total: nat, chunkLength: int, t: nat)
    requires chunkLength > 0 && t < total
    ensures var r := PlanChunks(parent, stem, total, chunkLength);
            t / chunkLength < |r| && r[t / chunkLength].startMs <= t < r[t / chunkLength].endMs
  {
    var r := PlanChunks(parent, stem, total, chunkLength);
    var i := t / chunkLength;
    SliceContains(total, chunkLength, t, i);
    assert r[i].startMs == i * chunkLength;
    assert r[i].endMs == Min((i + 1) * chunkLength, total);
  }

  /** Millisecond `t` of the track lies in slice `t / l`. */
  lemma SliceContains(total: nat, l: int, t: nat, i: nat)
    requires l > 0 && t < total && i == t / l
    ensures i < ChunkCount(total, l)
    ensures i * l <= t < Min((i + 1) * l, total)
  {
    var n := ChunkCount(total, l);
    assert t == i * l + t % l;
    assert (i + 1) * l == i * l + l;
    if n <= i {
      MulMonotone(n, i, l);
    }
  }

  /** Reads the chunk index back from a path in `parent` named after `stem`;
      `None` for any other path. */
  function ParseChunkIndex(parent: string, stem: string, path: string): Option<nat> {
    var head := Paths.DirPrefix(parent) + stem + "_part";
    var tail := ".flac";
    if |path| >= |head| + |tail| && path[..|head|] == head && path[|path| - |tail|..] == tail
       && Decimal.IsCanonical(path[|head|..|path| - |tail|])
    then Some(Decimal.Value(path[|head|..|path| - |tail|]))
    else None
  }

  /** Cutting `a + b + c` at the lengths of `a` and `c` gives back the three parts. */
  lemma ThreePartSlices(a: string, b: string, c: string)
    ensures var s := a + b + c;
            s[..|a|] == a && s[|s| - |c|..] == c && s[|a|..|s| - |c|] == b
  {
  }

  lemma ChunkPathParts(parent: string, stem: string, i: nat)
    ensures ChunkPath(parent, stem, i) == (Paths.DirPrefix(parent) + stem + "_part") + Decimal.Digits(i) + ".flac"
  {
  }

  /** Parsing inverts naming, in both directions: the path of chunk `i` parses
      to `i`, and a path that parses to `i` is the path of chunk `i`. */
  lemma ChunkPathRoundTrip(parent: string, stem: string, i: nat, path: string)
    ensures ParseChunkIndex(parent, stem, ChunkPath(parent, stem, i)) == Some(i)
    ensures ParseChunkIndex(parent, stem, path) == Some(i) ==> path == ChunkPath(parent, stem, i)
  {
    var head := Paths.DirPrefix(parent) + stem + "_part";
    ChunkPathParts(parent, stem, i);
    ThreePartSlices(head, Decimal.Digits(i), ".flac");
    Decimal.ValueOfDigits(i);
    if ParseChunkIndex(parent, stem, path) == Some(i) {
      ParsedPathIsChunkPath(parent, stem, i, path);
    }
  }

  lemma ParsedPathIsChunkPath(parent: string, stem: string, i: nat, path: string)
    requires ParseChunkIndex(parent, stem, path) == Some(i)
    ensures path == ChunkPath(parent, stem, i)
  {
    var head := Paths.DirPrefix(parent) + stem + "_part";
    var tail := ".flac";
    var mid := path[|head|..|path| - |tail|];
    Decimal.DigitsOfValue(mid);
    assert path == path[..|head|] + mid + path[|path| - |tail|..];
    ChunkPathParts(parent, stem, i);
  }

  /** The planned paths are pairwise distinct. */
  lemma PlanPathsDistinct(parent: string, stem: string, total: nat, chunkLength: int, i: nat, j: nat)
    requires chunkLength != 0
    requires i < |PlanChunks(parent, stem, total, chunkLength)| && j < |PlanChunks(parent, stem, total, chunkLength)|
    requires i != j
    ensures PlanChunks(parent, stem, total, chunkLength)[i].path != PlanChunks(parent, stem, total, chunkLength)[j].path
  {
    ChunkPathRoundTrip(parent, stem, i, ChunkPath(parent, stem, j));
    ChunkPathRoundTrip(parent, stem, j, ChunkPath(parent, stem, j));
  }

  /** The names of the first ten chunks of a file in the current directory. */
  lemma SingleDigitChunkPath(stem: string, i: nat)
    requires i < 10
    ensures ChunkPath(".", stem, i) == stem + "_part" + [Decimal.DigitChar(i)] + ".flac"
  {
    assert Paths.DirPrefix(".") == "";
  }

  lemma TestChunkNames()
    ensures "test" + "_part" + [Decimal.DigitChar(0)] + ".flac" == "test_part0.flac"
    ensures "test" + "_part" + [Decimal.DigitChar(1)] + ".flac" == "test_part1.flac"
    ensures "test" + "_part" + [Decimal.DigitChar(2)] + ".flac" == "test_part2.flac"
  {
  }

  /** A 25-minute track in 10-minute chunks: three chunks of 10, 10 and 5
      minutes, the first named `test_part0.flac`. */
  lemma SplitAudioExample(r: Result<seq<Chunk>, SplitError>)
    requires r == SplitAudio(".", "test", Some(25 * 60 * 1000), DefaultChunkLengthMs)
    ensures r.Success? && |r.value| == 3
    ensures r.value[0].startMs == 0 && r.value[0].endMs == 600000
    ensures r.value[1].startMs == 600000 && r.value[1].endMs == 1200000
    ensures r.value[2].startMs == 1200000 && r.value[2].endMs == 1500000
    ensures r.value[0].path == "test_part0.flac"
    ensures r.value[1].path == "test_part1.flac"
    ensures r.value[2].path == "test_part2.flac"
  {
    assert r.value == PlanChunks(".", "test", 1500000, 600000);
    assert |r.value| == 3 by {
      assert ChunkCount(1500000, 600000) == 3;
    }
    assert r.value[0].path == ChunkPath(".", "test", 0);
    assert r.value[1].path == ChunkPath(".", "test", 1);
    assert r.value[2].path == ChunkPath(".", "test", 2);
    SingleDigitChunkPath("test", 0);
    SingleDigitChunkPath("test", 1);
    SingleDigitChunkPath("test", 2);
    TestChunkNames();
  }
}
