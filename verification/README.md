# video_analyst ingestion and segmentation core, in Dafny

This project models the deterministic core of the `video_analyst` ingestion
and segmentation code as pure Dafny functions and methods over sequences,
and proves properties of it:

- **Extraction** (`extract_audio`): the FLAC path derived from the video's
  stem, reuse of an existing file without running the decoder, and failure
  on a non-zero decoder exit status.
- **Chunking** (`split_audio`): the number of chunks (`ceil(total / L)`),
  the millisecond bounds of each chunk, and the deterministic chunk file
  names `<stem>_part<i>.flac`.
- **Timeline** (the assembly loop of `transcribe_audio_pipeline`): one
  segment per chunk in index order, every word shifted by the sum of the
  decoded durations of the earlier chunks.
- **Chapters** (`Chapter.check_times`): the three-way repair that makes every
  chapter run forward.
- **Anchors** (`_inject_time_anchors`): the word stream with `<t=...>`
  anchors, modelled as a token sequence `WordToken(w) | Anchor(t)`, and the
  source's sentence-buffer loop proved to produce the space-joined rendering
  of that stream.

Supporting modules: `Outcomes` (Option/Result for the source's exceptions),
`Decimal` (Python's rendering of a non-negative int, with its parser) and
`Paths` (`str(Path(dir) / name)`).

Decoded lengths, chunk durations, the file-exists flag and the decoder exit
status are inputs of the model. Decoded lengths are `nat` milliseconds and
word times are `real` seconds. The speech-to-text response is an input record
with one word type.

Transcription is a plain sequential loop. `src/video_analyst/ingestion.py`
has no worker pool, retries, back-off, checkpoints or chunk-file reuse, and
`split_audio` re-exports every chunk.

## Model

| member | source | states |
|---|---|---|
| Extraction.AudioPath | src/video_analyst/ingestion.py:38-42 | the derived audio path is `<stem>.flac` placed in the output directory as `Paths.JoinedAs` describes: the file name alone for `""` and `"."`, otherwise the directory, one `/` unless the directory already ends in one, then the file name |
| Extraction.DecoderCommand | src/video_analyst/ingestion.py:47 | the command is `ffmpeg -y `, then `-i` with the quoted video path, then the fixed options for no video, mono, 16 kHz and FLAC, then the quoted audio path, and nothing else |
| Extraction.ExtractAudio | src/video_analyst/ingestion.py:42-54 | no decoder command exactly when the file is cached, otherwise exactly one naming the derived path; fails iff not cached and the exit status is non-zero, carrying the issued command; on success returns the derived path |
| Extraction.ExtractAudioIdempotent | src/video_analyst/ingestion.py:42-45 | a second call after a success issues no command and returns the same path, so two calls run the decoder at most once |
| Extraction.DecoderCommandNamesBothPaths | src/video_analyst/ingestion.py:47 | the decoder command contains `-i "<video>"` and the quoted output path |
| Extraction.ExtractAudioExample | tests/test_ingestion.py:5-23 | `test_video.mp4` into `/tmp` with no file on disk returns `/tmp/test_video.flac` and issues exactly one command, reading `test_video.mp4` and writing that path |
| Extraction.ExtractAudioCachedExample | tests/test_ingestion.py:25-36 | with the file on disk the same call returns `/tmp/test_video.flac` and issues no command |
| Extraction.DefaultOutputDirExample | src/video_analyst/ingestion.py:13 | with the default output directory the audio goes to `data/audio/<stem>.flac` |
| Chunking.ChunkCount | src/video_analyst/ingestion.py:84-85 | the chunk count is the ceiling of `total / L`: `n * L >= total` and `(n - 1) * L < total`; zero iff the track is empty or `L` is negative |
| Chunking.ChunkPath | src/video_analyst/ingestion.py:95-96 | the path of chunk `i` is `<stem>_part<i>.flac`, with `i` in decimal, placed in the parent directory as `Paths.JoinedAs` describes |
| Chunking.PlanChunks | src/video_analyst/ingestion.py:89-99 | there are `ChunkCount` chunks, chunk `i` has index `i`, path `ChunkPath(parent, stem, i)` and bounds `[i * L, min((i + 1) * L, total))` |
| Chunking.SplitAudio | src/video_analyst/ingestion.py:77-99 | fails with `LoadFailed` iff decoding fails, with `ZeroChunkLength` iff the length is zero, and otherwise returns the chunk plan |
| Chunking.PlanTiles | src/video_analyst/ingestion.py:89-91 | chunk 0 starts at 0, each chunk ends where the next starts, the last ends at `total`, and there are no chunks iff `total` is zero |
| Chunking.PlanChunkLengths | src/video_analyst/ingestion.py:89-93 | every chunk is non-empty and at most `L` long; the last is `total % L` long, or `L` when `L` divides `total` |
| Chunking.PlanCovers | src/video_analyst/ingestion.py:89-93 | every millisecond `t < total` lies in chunk `t / L` |
| Chunking.ChunkPathRoundTrip | src/video_analyst/ingestion.py:95-96 | the path of chunk `i` parses back to `i`, and a path that parses to `i` is the path of chunk `i` |
| Chunking.PlanPathsDistinct | src/video_analyst/ingestion.py:95-99 | different chunks of one plan have different paths |
| Chunking.SplitAudioExample | tests/test_ingestion.py:38-60 | 25 minutes in 10-minute chunks gives three chunks of 10, 10 and 5 minutes, named `test_part0.flac`, `test_part1.flac` and `test_part2.flac` |
| Chunking.SingleDigitChunkPath | src/video_analyst/ingestion.py:95-96 | chunks 0 to 9 of a file in the current directory are named `<stem>_part<digit>.flac` |
| Decimal.Digits | src/video_analyst/ingestion.py:95 | the rendering of a chunk index is a canonical decimal: digits only, with no leading zero except for `0` itself |
| Decimal.ValueOfDigits | src/video_analyst/ingestion.py:95 | reading back the decimal rendering of `n` gives `n` |
| Decimal.DigitsOfValue | src/video_analyst/ingestion.py:95 | rendering the value of a canonical digit string gives the string back |
| Decimal.DigitsInjective | src/video_analyst/ingestion.py:95 | distinct chunk indices render as distinct digit strings |
| Paths.Join | src/video_analyst/ingestion.py:42 | joining gives the name alone in the current directory, and otherwise the directory, one `/` unless the directory already ends in one, and the name |
| Paths.JoinedAsUnique | src/video_analyst/ingestion.py:42 | the description of a joined path allows only one path, so it determines `str(Path(dir) / name)` completely |
| Paths.JoinInjective | src/video_analyst/ingestion.py:96 | in one directory, distinct file names give distinct paths |
| Timeline.Offset | src/video_analyst/ingestion.py:129-175 | the offset of chunk `i` is never negative, starts at zero, and grows by the previous chunk's decoded length in seconds, as the running offset does after each chunk |
| Timeline.AssembleTranscript | src/video_analyst/ingestion.py:128-175 | one segment per chunk in index order with `chunk_index = i` and the chunk's text; its words keep text, count and order, and each start and end is the raw value plus the sum of the earlier chunks' durations |
| Timeline.OffsetMonotone | src/video_analyst/ingestion.py:172-175 | the running offset never decreases from one chunk to a later one |
| Timeline.SegmentKeepsWordDurations | src/video_analyst/ingestion.py:164-168 | shifting keeps every word's `end - start` |
| Timeline.TimelineMonotone | src/video_analyst/ingestion.py:156-175 | when every raw word starts at or after 0 and ends within its chunk's length, any word of an earlier segment ends no later than any word of a later segment starts |
| Timeline.OffsetExample | src/video_analyst/ingestion.py:164-175 | with chunks of 598.2 s and 601.0 s, a word 5.0 s into the second chunk starts at 603.2 s |
| Chapters.CheckTimes | src/video_analyst/segmentation.py:44-54 | the result always runs forward; title, summary and keywords are kept; a forward chapter is unchanged, an empty one gets `end = start + 1`, a backward one has its times swapped |
| Chapters.CheckTimesIdempotent | src/video_analyst/segmentation.py:44-54 | validating twice equals validating once |
| Chapters.CheckTimesStartIsEarlier | src/video_analyst/segmentation.py:47-52 | the repaired start is the earlier of the two given times, and the repaired end is no earlier than either |
| Chapters.ValidateStructure | src/video_analyst/segmentation.py:44-67 | chapter `i` of a parsed structure is input chapter `i` repaired by `CheckTimes`, so every chapter runs forward, in the given order with the given titles; an already valid list is kept as is |
| Chapters.ValidateStructureIdempotent | src/video_analyst/segmentation.py:44-67 | parsing an already parsed structure again changes nothing |
| Chapters.CheckTimesExamples | tests/test_segmentation.py:3-28 | start 100 and end 50 become 50 and 100; start 10 and end 10 become 10 and 11 |
| Anchors.InjectTimeAnchors | src/video_analyst/segmentation.py:69-118 | the sentence-buffer loop returns the space-joined rendering of the anchor stream of the flattened words, and the empty string when there are no words |
| Anchors.AnchorTokens | src/video_analyst/segmentation.py:98-112 | the stream has at least one token per word and at most two |
| Anchors.StripAnchorsRecoversWords | src/video_analyst/segmentation.py:92-102 | removing the anchors from the stream leaves exactly the flattened words, in order |
| Anchors.CollectWords | src/video_analyst/segmentation.py:92-94 | the flattening loop collects exactly the words of all segments in order, as `Flatten` defines them |
| Anchors.FlattenPosition | src/video_analyst/segmentation.py:92-94 | word `k` of segment `i` follows all words of the earlier segments, so words appear segment by segment |
| Anchors.FlattenWordless | src/video_analyst/segmentation.py:92-94 | segments without words flatten to nothing, so the output is the empty string |
| Anchors.LastAnchor | src/video_analyst/segmentation.py:89-112 | with a non-negative interval the last-anchor time never falls below its starting value `-interval` |
| Anchors.LastAnchorIsWordStart | src/video_analyst/segmentation.py:89-112 | the last-anchor time is either the starting `-interval` or the start time of one of the words |
| Anchors.JoinSpaceShape | src/video_analyst/segmentation.py:107-118 | `" ".join` gives `""` for no pieces; otherwise it starts with the first piece, ends with the last, and is as long as the pieces plus one space between each two neighbours |
| Anchors.DefaultIntervalExample | src/video_analyst/segmentation.py:69-112 | with the default 30 s interval, words `a`, `b` and `c` at 0 s, 10 s and 40 s give the stream `a`, anchor at 0, `b`, `c`, anchor at 40 |
| Anchors.AnchorsFollowTheirWord | src/video_analyst/segmentation.py:102-112 | every anchor comes immediately after a word and carries that word's start time |
| Anchors.AnchorTriggerIff | src/video_analyst/segmentation.py:102-112 | word `k` is followed by an anchor, carrying its start, iff its start is at least `interval` after the last anchor before it |
| Anchors.FirstWordAnchored | src/video_analyst/segmentation.py:89-105 | because the last anchor starts at `-interval`, the first word gets an anchor iff its start is at least zero |
| Anchors.AnchorSpacing | src/video_analyst/segmentation.py:89-112 | consecutive anchor times differ by at least `interval`, the first is at least zero, and the scan's last-anchor time is the last anchor emitted |

## Left out

- The decoder subprocess (`os.system`), directory creation and the file-existence check. The exists flag and the exit status are inputs.
- Decoding and exporting audio with pydub. The decoded length (or a decode failure) is an input, and a chunk is its bounds and path.
- The video's stem (`Path(video_path).stem`) and the audio file's parent and stem. These are inputs, not derived from a path string.
- Paths.Join: models `pathlib` joining for `""`, `"."`, a trailing `/` and plain directories. It does not model the rest of path normalisation (`./a`, `a//b`).
- Chunking.ChunkCount: computes `ceil(total / L)` exactly. The source divides in floating point. That agrees whenever the length is below 2^52 ms and the chunk length is at most about 2^1074 times the length. A larger chunk length makes the quotient underflow to 0.0, and the source then plans no chunks where the model plans one.
- All calls to the speech-to-text and chat-completion services, the module-level client and the API-key checks. These are foreign network calls. The transcription result is an input record.
- The dict-or-object access to response words (ingestion.py:160-162). Words have one record type.
- The orchestration of `transcribe_audio_pipeline`: calling extraction, splitting and transcription in turn and letting their exceptions propagate. This is glue around the modelled parts. Also left out: the progress bar, the spinners, Streamlit's result cache, and the `finally` block that deletes chunk files (ingestion.py:179-182).
- Timeline.AssembleTranscript: uses exact real arithmetic. The source adds float seconds, so the offsets may drift by rounding. Each duration is taken as the decoded length in ms divided by 1000, as in the source.
- Chapters.CheckTimes: is over reals. In IEEE doubles, a NaN time passes unchanged. Adding 1.0 to the end of a zero-length chapter keeps it zero-length when the start is at least 2^54. Between 2^53 and 2^54 the outcome depends on round-half-to-even. So "end > start" holds only for finite times of moderate size.
- Anchors.InjectTimeAnchors: keeps the printing of anchor times (`{start:.1f}`) abstract as the parameter `fmt`. Rounding is not modelled.
- `semantic_segmentation_pipeline`: its JSON cache, its chat-completion call and its logging are I/O.
- The two warnings `check_times` logs when it repairs a chapter (segmentation.py:48 and 53). Logging is I/O, and nothing in the core reads it.
- `src/video_analyst/main.py`: user interface.
