/** `extract_audio` (src/video_analyst/ingestion.py): derive the FLAC path
    for a video, reuse it when it is already on disk, otherwise run the
    external decoder and fail on a non-zero exit status. The file-system
    check and the decoder's exit status are inputs of the model. */
module Extraction {
  import opened Outcomes
  import Paths

  const AudioExtension := ".flac"
  const DefaultOutputDir := "data/audio"

  /** The error `extract_audio` raises; it carries the command that failed. */
  datatype ExtractError = DecoderFailed(command: string)

  /** What one call does: the decoder commands it issues (none or one) and
      what it returns or raises. */
  datatype Extraction = Extraction(issued: seq<string>, result: Result<string, ExtractError>)

  /** `output_dir / f"{stem}.flac"`. */
  function AudioPath(outputDir: string, stem: string): (p: string)
    ensures Paths.JoinedAs(p, outputDir, stem + AudioExtension)
  {
    Paths.Join(outputDir, stem + AudioExtension)
  }

  /** The fixed parts of the decoder command: overwrite the output, and
      after the input drop the video, mix to mono, resample to 16 kHz and
      encode as FLAC. */
  const DecoderHead := "ffmpeg -y "
  const DecoderOptions := " -vn -ac 1 -ar 16000 -c:a flac "

  function Quote(s: string): string {
    "\"" + s + "\""
  }

  /** The decoder command line: overwrite, read `videoPath`, drop video, mono,
      16 kHz, FLAC, write `audioPath`. */
  function DecoderCommand(videoPath: string, audioPath: string): (c: string)
    ensures |c| >= |DecoderHead| && c[..|DecoderHead|] == DecoderHead
    ensures OccursAt(c, "-i " + Quote(videoPath), |DecoderHead|)
    ensures OccursAt(c, DecoderOptions, |DecoderHead| + |"-i " + Quote(videoPath)|)
    ensures |c| >= |Quote(audioPath)| && c[|c| - |Quote(audioPath)|..] == Quote(audioPath)
    ensures |c| == |DecoderHead| + |"-i " + Quote(videoPath)| + |DecoderOptions| + |Quote(audioPath)|
  {
    var input := "-i " + Quote(videoPath);
    var output := Quote(audioPath);
    OccursBetween(DecoderHead, input, DecoderOptions + output);
    OccursBetween(DecoderHead + input, DecoderOptions, output);
    assert DecoderHead + input + (DecoderOptions + output) == DecoderHead + input + DecoderOptions + output;
    DecoderHead + input + DecoderOptions + output
  }

  /** `part` occurs in `s` starting at position `k`. */
  predicate OccursAt(s: string, part: string, k: int) {
    0 <= k <= |s| - |part| && s[k..k + |part|] == part
  }

  /** Python's `part in s` on strings. */
  ghost predicate Contains(s: string, part: string) {
    exists k :: OccursAt(s, part, k)
  }

  lemma OccursBetween(a: string, part: string, b: string)
    ensures OccursAt(a + part + b, part, |a|)
  {
    assert (a + part + b)[|a|..|a| + |part|] == part;
  }

  /** The command names the input after `-i` and the quoted output path. */
  lemma DecoderCommandNamesBothPaths(videoPath: string, audioPath: string)
    ensures Contains(DecoderCommand(videoPath, audioPath), "-i " + Quote(videoPath))
    ensures Contains(DecoderCommand(videoPath, audioPath), Quote(audioPath))
  {
    var c := DecoderCommand(videoPath, audioPath);
    assert OccursAt(c, "-i " + Quote(videoPath), |DecoderHead|);
    assert OccursAt(c, Quote(audioPath), |c| - |Quote(audioPath)|);
  }

  /** `extract_audio(video_path, output_dir)` for a video whose file stem is
      `stem`, where `cached` says whether the FLAC file is already on disk and
      `exitCode` is what the decoder would return if it were run. */
  function ExtractAudio(videoPath: string, outputDir: string, stem: string, cached: bool, exitCode: int): (r: Extraction)
    ensures |r.issued| <= 1
    ensures r.issued == [] <==> cached
    ensures r.issued != [] ==> r.issued[0] == DecoderCommand(videoPath, AudioPath(outputDir, stem))
    ensures r.result.Failure? <==> !cached && exitCode != 0
    ensures r.result.Success? ==> r.result.value == AudioPath(outputDir, stem)
    ensures r.result.Failure? ==> r.result.error.command == r.issued[0]
  {
    var audioPath := AudioPath(outputDir, stem);
    if cached then
      Extraction([], Success(audioPath))
    else
      var cmd := DecoderCommand(videoPath, audioPath);
      if exitCode != 0 then Extraction([cmd], Failure(DecoderFailed(cmd)))
      else Extraction([cmd], Success(audioPath))
  }

  /** Running the extraction again after a success finds the file on disk: the
      two calls together issue at most one decoder command and agree on the
      returned path, whatever the second exit status would have been. */
  lemma ExtractAudioIdempotent(videoPath: string, outputDir: string, stem: string, cached: bool, exitCode: int, laterExitCode: int)
    requires ExtractAudio(videoPath, outputDir, stem, cached, exitCode).result.Success?
    ensures var first := ExtractAudio(videoPath, outputDir, stem, cached, exitCode);
            var second := ExtractAudio(videoPath, outputDir, stem, true, laterExitCode);
            |first.issued + second.issued| <= 1 && second.result == first.result
  {
  }

  /** `test_video` extracted into `/tmp` goes to `/tmp/test_video.flac`. */
  lemma TmpAudioPath()
    ensures AudioPath("/tmp", "test_video") == "/tmp/test_video.flac"
  {
    assert Paths.DirPrefix("/tmp") == "/tmp/";
  }

  /** A missing file and a zero exit status: one command, reading the video
      and writing the FLAC path, which is also the result. */
  lemma ExtractAudioExample(r: Extraction)
    requires r == ExtractAudio("test_video.mp4", "/tmp", "test_video", false, 0)
    ensures r.result == Success("/tmp/test_video.flac") && |r.issued| == 1
    ensures r.issued[0] == DecoderCommand("test_video.mp4", "/tmp/test_video.flac")
  {
    TmpAudioPath();
  }

  /** With the file already on disk: the same path, and no command even
      though the decoder would have failed. */
  lemma ExtractAudioCachedExample(r: Extraction)
    requires r == ExtractAudio("test_video.mp4", "/tmp", "test_video", true, 1)
    ensures r.issued == [] && r.result == Success("/tmp/test_video.flac")
  {
    TmpAudioPath();
  }

  /** With the default output directory the audio goes to `data/audio`. */
  lemma DefaultOutputDirExample(stem: string)
    ensures AudioPath(DefaultOutputDir, stem) == "data/audio/" + stem + AudioExtension
  {
    assert Paths.DirPrefix(DefaultOutputDir) == "data/audio/";
  }
}
