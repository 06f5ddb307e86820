/** The chapter schema of src/video_analyst/segmentation.py and its
    `check_times` validator, which repairs the times a language model
    returns so that every chapter runs forward. Times are real numbers. */
module Chapters {

  /** One chapter of the video's semantic structure. */
  datatype Chapter = Chapter(title: string, summary: string, startTime: real, endTime: real, keywords: seq<string>)

  /** The validated structure: every chapter, in the order given. */
  datatype VideoStructure = VideoStructure(chapters: seq<Chapter>)

  predicate RunsForward(c: Chapter) {
    c.endTime > c.startTime
  }

  /** `Chapter.check_times`: a forward chapter is kept, a zero-length one is
      stretched to one second, a backward one has its times swapped. */
  function CheckTimes(c: Chapter): (r: Chapter)
    ensures RunsForward(r)
    ensures r.title == c.title && r.summary == c.summary && r.keywords == c.keywords
    ensures RunsForward(c) ==> r == c
    ensures c.endTime == c.startTime ==> r.startTime == c.startTime && r.endTime == c.startTime + 1.0
    ensures c.endTime < c.startTime ==> r.startTime == c.endTime && r.endTime == c.startTime
  {
    if c.endTime <= c.startTime then
      if c.endTime == c.startTime then c.(endTime := c.endTime + 1.0)
      else c.(startTime := c.endTime, endTime := c.startTime)
    else c
  }

  /** Validating an already validated chapter changes nothing. */
  lemma CheckTimesIdempotent(c: Chapter)
    ensures CheckTimes(CheckTimes(c)) == CheckTimes(c)
  {
  }

  /** The repair only ever moves the end of the chapter later or swaps the two
      times: the repaired start is the earlier of the two given times. */
  lemma CheckTimesStartIsEarlier(c: Chapter)
    ensures CheckTimes(c).startTime == if c.startTime <= c.endTime then c.startTime else c.endTime
    ensures CheckTimes(c).endTime >= c.startTime && CheckTimes(c).endTime >= c.endTime
  {
  }

  /** Parsing a `VideoStructure` validates each chapter in turn. */
  function ValidateStructure(chapters: seq<Chapter>): (v: VideoStructure)
    ensures |v.chapters| == |chapters|
    ensures forall i :: 0 <= i < |chapters| ==> RunsForward(v.chapters[i]) && v.chapters[i].title == chapters[i].title
    ensures (forall i :: 0 <= i < |chapters| ==> RunsForward(chapters[i])) ==> v.chapters == chapters
    ensures forall i :: 0 <= i < |chapters| ==> v.chapters[i] == CheckTimes(chapters[i])
  {
    VideoStructure(seq(|chapters|, i requires 0 <= i < |chapters| => CheckTimes(chapters[i])))
  }

  /** Parsing an already parsed structure again changes nothing. */
  lemma {:induction false} ValidateStructureIdempotent(chapters: seq<Chapter>)
    ensures ValidateStructure(ValidateStructure(chapters).chapters) == ValidateStructure(chapters)
  {
    var once := ValidateStructure(chapters).chapters;
    forall i | 0 <= i < |once|
      ensures RunsForward(once[i])
    {
    }
  }

  /** Start 100, end 50: the times are swapped. Start 10, end 10: the end
      becomes 11. */
  lemma CheckTimesExamples()
    ensures var c := CheckTimes(Chapter("Test", "Test summary", 100.0, 50.0, ["test"]));
            c.startTime == 50.0 && c.endTime == 100.0
    ensures var c := CheckTimes(Chapter("Test", "Summary", 10.0, 10.0, ["test"]));
            c.startTime == 10.0 && c.endTime == 11.0
  {
  }
}
