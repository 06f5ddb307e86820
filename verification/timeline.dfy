/** The assembly loop of `transcribe_audio_pipeline`
    (src/video_analyst/ingestion.py): chunk results are taken in index
    order, each word is moved from chunk-relative time to whole-recording
    time by adding the running offset, and the offset then grows by the
    decoded length of the chunk just processed. The speech-to-text call and
    the re-decoding of each chunk are left out: their results are inputs. */
module Timeline {

  /** A recognised word with its start and end time in seconds. */
  datatype Word = Word(text: string, start: real, end: real)

  /** What the speech-to-text service returns for one chunk; word times are
      relative to the start of that chunk. */
  datatype Transcription = Transcription(text: string, words: seq<Word>)

  /** One chunk's transcription together with the decoded length of the
      chunk's audio in milliseconds. */
  datatype ChunkResult = ChunkResult(transcription: Transcription, durationMs: nat)

  /** One entry of the assembled transcript. */
  datatype Segment = Segment(chunkIndex: nat, text: string, words: seq<Word>)

  /** `len(audio) / 1000.0`: a decoded length in seconds. */
  function Seconds(ms: nat): real {
    ms as real / 1000.0
  }

  /** Total decoded length of the chunks before chunk `i`, in milliseconds. */
  function ElapsedMs(chunks: seq<ChunkResult>, i: nat): nat
    requires i <= |chunks|
  {
    if i == 0 then 0 else ElapsedMs(chunks, i - 1) + chunks[i - 1].durationMs
  }

  /** The global offset of chunk `i`: the sum of the durations of all earlier
      chunks. It starts at zero and grows by each chunk's length in seconds,
      the way the running offset is updated after every chunk. */
  function Offset(chunks: seq<ChunkResult>, i: nat): (t: real)
    requires i <= |chunks|
    ensures t >= 0.0
    ensures i == 0 ==> t == 0.0
    ensures i > 0 ==> t == Seconds(ElapsedMs(chunks, i - 1)) + Seconds(chunks[i - 1].durationMs)
  {
    Seconds(ElapsedMs(chunks, i))
  }

  function ShiftWord(w: Word, delta: real): Word {
    Word(w.text, w.start + delta, w.end + delta)
  }

  /** The segment the pipeline emits for chunk `i`, written with the closed
      form of its offset. */
  function SegmentAt(chunks: seq<ChunkResult>, i: nat): Segment
    requires i < |chunks|
  {
    var raw := chunks[i].transcription;
    Segment(i, raw.text, seq(|raw.words|, k requires 0 <= k < |raw.words| => ShiftWord(raw.words[k], Offset(chunks, i))))
  }

  /** The assembly loop: a running offset that starts at zero and grows by
      each chunk's duration after its segment is emitted. Segment `i` carries
      index `i` and the chunk's text, and its words are the chunk's words in
      order, each moved by the sum of the earlier chunks' durations. */
  method AssembleTranscript(chunks: seq<ChunkResult>) returns (transcript: seq<Segment>)
    ensures |transcript| == |chunks|
    ensures forall i :: 0 <= i < |chunks| ==>
              transcript[i].chunkIndex == i
              && transcript[i].text == chunks[i].transcription.text
              && |transcript[i].words| == |chunks[i].transcription.words|
    ensures forall i, k :: 0 <= i < |chunks| && 0 <= k < |chunks[i].transcription.words| ==>
              k < |transcript[i].words|
              && transcript[i].words[k].text == chunks[i].transcription.words[k].text
              && transcript[i].words[k].start == chunks[i].transcription.words[k].start + Offset(chunks, i)
              && transcript[i].words[k].end == chunks[i].transcription.words[k].end + Offset(chunks, i)
    ensures forall i :: 0 <= i < |chunks| ==> transcript[i] == SegmentAt(chunks, i)
  {
    transcript := [];
    var offset := 0.0;
    var i := 0;
    while i < |chunks|
      invariant 0 <= i <= |chunks|
      invariant offset == Offset(chunks, i)
      invariant |transcript| == i
      invariant forall j :: 0 <= j < i ==> transcript[j] == SegmentAt(chunks, j)
    {
      var raw := chunks[i].transcription;
      var words: seq<Word> := [];
      var k := 0;
      while k < |raw.words|
        invariant 0 <= k <= |raw.words|
        invariant |words| == k
        invariant forall m :: 0 <= m < k ==> words[m] == ShiftWord(raw.words[m], offset)
      {
        var w := raw.words[k];
        words := words + [Word(w.text, w.start + offset, w.end + offset)];
        k := k + 1;
      }
      transcript := transcript + [Segment(i, raw.text, words)];
      offset := offset + Seconds(chunks[i].durationMs);
      i := i + 1;
    }
  }

  /** Offsets never decrease along the chunk order. */
  lemma {:induction false} OffsetMonotone(chunks: seq<ChunkResult>, i: nat, j: nat)
    requires i <= j <= |chunks|
    ensures Offset(chunks, i) <= Offset(chunks, j)
    decreases j - i
  {
    if i < j {
      OffsetMonotone(chunks, i, j - 1);
    }
  }

  /** Shifting keeps each word's duration. */
  lemma SegmentKeepsWordDurations(chunks: seq<ChunkResult>, i: nat, k: nat)
    requires i < |chunks| && k < |chunks[i].transcription.words|
    ensures var w := chunks[i].transcription.words[k];
            var s := SegmentAt(chunks, i);
            k < |s.words| && s.words[k].end - s.words[k].start == w.end - w.start
  {
  }

  /** A word lies inside its chunk: it starts no earlier than the chunk and
      ends no later than the chunk's decoded length. Its start need not come
      before its end. */
  predicate WithinChunk(w: Word, durationMs: nat) {
    0.0 <= w.start && w.end <= Seconds(durationMs)
  }

  /** Every word of every chunk lies inside its chunk. */
  predicate AllWithinChunks(chunks: seq<ChunkResult>) {
    forall i, k :: 0 <= i < |chunks| && 0 <= k < |chunks[i].transcription.words| ==>
      WithinChunk(chunks[i].transcription.words[k], chunks[i].durationMs)
  }

  /** When the service keeps every word inside its chunk, the assembled
      timeline is ordered across segments: any word of an earlier segment
      ends no later than any word of a later segment starts. */
  lemma TimelineMonotone(chunks: seq<ChunkResult>, i: nat, j: nat, a: nat, b: nat)
    requires AllWithinChunks(chunks)
    requires i < j < |chunks|
    requires a < |chunks[i].transcription.words| && b < |chunks[j].transcription.words|
    ensures a < |SegmentAt(chunks, i).words| && b < |SegmentAt(chunks, j).words|
    ensures SegmentAt(chunks, i).words[a].end <= SegmentAt(chunks, j).words[b].start
  {
    var wa := chunks[i].transcription.words[a];
    var wb := chunks[j].transcription.words[b];
    assert WithinChunk(wa, chunks[i].durationMs);
    assert WithinChunk(wb, chunks[j].durationMs);
    assert Offset(chunks, i + 1) == Offset(chunks, i) + Seconds(chunks[i].durationMs);
    OffsetMonotone(chunks, i + 1, j);
  }

  /** Two chunks decoded as 598.2 s and 601.0 s: a word 5.0 s into the second
      chunk lands at 603.2 s. */
  lemma OffsetExample()
    ensures var chunks := [ChunkResult(Transcription("a", []), 598200),
                           ChunkResult(Transcription("b", [Word("x", 5.0, 5.5)]), 601000)];
            SegmentAt(chunks, 1).words[0].start == 603.2
  {
    var chunks := [ChunkResult(Transcription("a", []), 598200),
                   ChunkResult(Transcription("b", [Word("x", 5.0, 5.5)]), 601000)];
    assert ElapsedMs(chunks, 1) == 598200;
  }
}
