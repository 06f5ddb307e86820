/** `_inject_time_anchors` (src/video_analyst/segmentation.py): flatten the
    transcript's words and place a time anchor after every word that starts
    at least `interval` seconds after the previous anchor, so that the
    chapter-segmentation prompt can cite times. The output is modelled as a
    token stream; the text the source builds is that stream's words and
    anchor tags joined by single spaces. How an anchor time is printed
    (`{start:.1f}`) is a parameter `fmt`. */
module Anchors {
  import opened Timeline

  const DefaultIntervalSec: int := 30

  /** An element of the annotated stream: a word, or an anchor carrying a time. */
  datatype Token = WordToken(word: Word) | Anchor(time: real)

  /** The words of all segments, segment by segment, each segment's words in order. */
  function Flatten(segments: seq<Segment>): seq<Word> {
    if |segments| == 0 then [] else Flatten(segments[..|segments| - 1]) + segments[|segments| - 1].words
  }

  lemma {:induction false} FlattenPrefix(segments: seq<Segment>, j: nat)
    requires j <= |segments|
    ensures Flatten(segments[..j]) <= Flatten(segments)
    decreases |segments|
  {
    if j < |segments| {
      var init := segments[..|segments| - 1];
      FlattenPrefix(init, j);
      assert init[..j] == segments[..j];
    } else {
      assert segments[..j] == segments;
    }
  }

  /** Word `k` of segment `i` sits right after the words of the segments before it. */
  lemma FlattenPosition(segments: seq<Segment>, i: nat, k: nat)
    requires i < |segments| && k < |segments[i].words|
    ensures |Flatten(segments[..i])| + k < |Flatten(segments)|
    ensures Flatten(segments)[|Flatten(segments[..i])| + k] == segments[i].words[k]
  {
    assert segments[..i + 1][..i] == segments[..i];
    assert Flatten(segments[..i + 1]) == Flatten(segments[..i]) + segments[i].words;
    FlattenPrefix(segments, i + 1);
  }

  /** Segments that hold no words flatten to nothing. */
  lemma {:induction false} FlattenWordless(segments: seq<Segment>)
    requires forall i :: 0 <= i < |segments| ==> segments[i].words == []
    ensures Flatten(segments) == []
    decreases |segments|
  {
    if |segments| > 0 {
      FlattenWordless(segments[..|segments| - 1]);
    }
  }

  /** A word earns an anchor when it starts at least `interval` after the last anchor. */
  predicate Triggers(w: Word, lastAnchor: real, interval: int) {
    w.start - lastAnchor >= interval as real
  }

  /** The time of the last anchor placed among `words`; `-interval` before the first. */
  function LastAnchor(words: seq<Word>, interval: int): (r: real)
    ensures interval >= 0 ==> r >= -(interval as real)
  {
    if |words| == 0 then -(interval as real)
    else
      var previous := LastAnchor(words[..|words| - 1], interval);
      var w := words[|words| - 1];
      if Triggers(w, previous, interval) then w.start else previous
  }

  /** The last anchor time is either the initial `-interval` (nothing was
      anchored) or the start time of one of the words. */
  lemma {:induction false} LastAnchorIsWordStart(words: seq<Word>, interval: int)
    ensures var r := LastAnchor(words, interval);
            r == -(interval as real) || exists k :: 0 <= k < |words| && r == words[k].start
  {
    if |words| > 0 {
      var init := words[..|words| - 1];
      LastAnchorIsWordStart(init, interval);
      var r := LastAnchor(init, interval);
      if r != -(interval as real) && !Triggers(words[|words| - 1], r, interval) {
        var k :| 0 <= k < |init| && r == init[k].start;
        assert words[k] == init[k];
      }
    }
  }

  /** The annotated stream for `words`: each word, followed by an anchor with
      its start time when it triggers one. */
  function AnchorTokens(words: seq<Word>, interval: int): (ts: seq<Token>)
    ensures |words| <= |ts| <= 2 * |words|
  {
    if |words| == 0 then []
    else
      var init := words[..|words| - 1];
      var w := words[|words| - 1];
      AnchorTokens(init, interval) + [WordToken(w)]
      + (if Triggers(w, LastAnchor(init, interval), interval) then [Anchor(w.start)] else [])
  }

  /** The stream with its anchors removed. */
  function StripAnchors(ts: seq<Token>): seq<Word> {
    if |ts| == 0 then []
    else StripAnchors(ts[..|ts| - 1]) + (if ts[|ts| - 1].WordToken? then [ts[|ts| - 1].word] else [])
  }

  /** The times of the stream's anchors, in order. */
  function AnchorTimes(ts: seq<Token>): seq<real> {
    if |ts| == 0 then []
    else AnchorTimes(ts[..|ts| - 1]) + (if ts[|ts| - 1].Anchor? then [ts[|ts| - 1].time] else [])
  }

  lemma {:induction false} StripAnchorsAppend(a: seq<Token>, b: seq<Token>)
    ensures StripAnchors(a + b) == StripAnchors(a) + StripAnchors(b)
    decreases |b|
  {
    if |b| > 0 {
      var init := b[..|b| - 1];
      StripAnchorsAppend(a, init);
      assert (a + b)[..|a + b| - 1] == a + init;
    } else {
      assert a + b == a;
    }
  }

  lemma {:induction false} AnchorTimesAppend(a: seq<Token>, b: seq<Token>)
    ensures AnchorTimes(a + b) == AnchorTimes(a) + AnchorTimes(b)
    decreases |b|
  {
    if |b| > 0 {
      var init := b[..|b| - 1];
      AnchorTimesAppend(a, init);
      assert (a + b)[..|a + b| - 1] == a + init;
    } else {
      assert a + b == a;
    }
  }

  /** The words of a stream grow by the one word its last word adds. */
  lemma StripAnchorsStep(words: seq<Word>, interval: int)
    requires |words| > 0
    ensures StripAnchors(AnchorTokens(words, interval))
            == StripAnchors(AnchorTokens(words[..|words| - 1], interval)) + [words[|words| - 1]]
  {
    var init := words[..|words| - 1];
    var w := words[|words| - 1];
    var extra: seq<Token> := if Triggers(w, LastAnchor(init, interval), interval) then [Anchor(w.start)] else [];
    StripAnchorsAppend(AnchorTokens(init, interval), [WordToken(w)]);
    StripAnchorsAppend(AnchorTokens(init, interval) + [WordToken(w)], extra);
    assert StripAnchors([WordToken(w)]) == [w] by {
      assert [WordToken(w)][..0] == [];
    }
    if extra != [] {
      assert StripAnchors(extra) == [] by {
        assert extra[..0] == [];
      }
    }
  }

  /** Removing the anchors gives back exactly the words, in order. */
  lemma {:induction false} StripAnchorsRecoversWords(words: seq<Word>, interval: int)
    ensures StripAnchors(AnchorTokens(words, interval)) == words
    decreases |words|
  {
    if |words| > 0 {
      var init := words[..|words| - 1];
      StripAnchorsRecoversWords(init, interval);
      StripAnchorsStep(words, interval);
      assert init + [words[|words| - 1]] == words;
    }
  }

  /** Every anchor of `ts` comes right after a word and carries that word's start time. */
  predicate AnchorsFollowWords(ts: seq<Token>) {
    forall q :: 0 <= q < |ts| && ts[q].Anchor? ==>
      0 < q && ts[q - 1].WordToken? && ts[q].time == ts[q - 1].word.start
  }

  /** In the annotated stream every anchor follows the word that triggered it. */
  lemma {:induction false} AnchorsFollowTheirWord(words: seq<Word>, interval: int)
    ensures AnchorsFollowWords(AnchorTokens(words, interval))
    decreases |words|
  {
    if |words| > 0 {
      var init := words[..|words| - 1];
      var w := words[|words| - 1];
      var before := AnchorTokens(init, interval);
      var extra: seq<Token> := if Triggers(w, LastAnchor(init, interval), interval) then [Anchor(w.start)] else [];
      var ts := AnchorTokens(words, interval);
      assert ts == before + [WordToken(w)] + extra;
      AnchorsFollowTheirWord(init, interval);
      forall q | 0 <= q < |ts| && ts[q].Anchor?
        ensures 0 < q && ts[q - 1].WordToken? && ts[q].time == ts[q - 1].word.start
      {
        if q < |before| {
          assert ts[q] == before[q];
          assert before[q].Anchor?;
          assert ts[q - 1] == before[q - 1];
        } else {
          assert q == |before| + 1 && ts[q - 1] == WordToken(w) && ts[q] == Anchor(w.start);
        }
      }
    }
  }

  lemma {:induction false} AnchorTokensPrefix(words: seq<Word>, j: nat, interval: int)
    requires j <= |words|
    ensures AnchorTokens(words[..j], interval) <= AnchorTokens(words, interval)
    decreases |words|
  {
    if j < |words| {
      var init := words[..|words| - 1];
      AnchorTokensPrefix(init, j, interval);
      assert init[..j] == words[..j];
    } else {
      assert words[..j] == words;
    }
  }

  lemma AnchorTokensStep(words: seq<Word>, k: nat, interval: int)
    requires k < |words|
    ensures AnchorTokens(words[..k + 1], interval)
            == AnchorTokens(words[..k], interval) + [WordToken(words[k])]
               + (if Triggers(words[k], LastAnchor(words[..k], interval), interval) then [Anchor(words[k].start)] else [])
    ensures LastAnchor(words[..k + 1], interval)
            == if Triggers(words[k], LastAnchor(words[..k], interval), interval) then words[k].start else LastAnchor(words[..k], interval)
  {
    assert words[..k + 1][..k] == words[..k];
  }

  /** Word `k` sits at position `|AnchorTokens(words[..k])|` of the stream. */
  lemma WordPosition(words: seq<Word>, interval: int, k: nat)
    requires k < |words|
    ensures var ts := AnchorTokens(words, interval);
            var q := |AnchorTokens(words[..k], interval)|;
            q < |ts| && ts[q] == WordToken(words[k])
  {
    var upto := AnchorTokens(words[..k + 1], interval);
    var q := |AnchorTokens(words[..k], interval)|;
    AnchorTokensStep(words, k, interval);
    AnchorTokensPrefix(words, k + 1, interval);
    assert upto[q] == WordToken(words[k]);
  }

  /** When word `k` triggers no anchor, the token after it is the next word,
      or there is none. */
  lemma NoAnchorAfter(words: seq<Word>, interval: int, k: nat)
    requires k < |words|
    requires !Triggers(words[k], LastAnchor(words[..k], interval), interval)
    ensures var ts := AnchorTokens(words, interval);
            var q := |AnchorTokens(words[..k], interval)|;
            q + 1 == |ts| || (q + 1 < |ts| && ts[q + 1].WordToken?)
  {
    AnchorTokensStep(words, k, interval);
    if k + 1 < |words| {
      WordPosition(words, interval, k + 1);
    } else {
      assert words[..k + 1] == words;
    }
  }

  /** Word `k` sits at position `|AnchorTokens(words[..k])|` of the stream, and
      the next token is an anchor carrying its start time exactly when it
      starts at least `interval` after the last anchor before it. */
  lemma AnchorTriggerIff(words: seq<Word>, interval: int, k: nat)
    requires k < |words|
    ensures var ts := AnchorTokens(words, interval);
            var q := |AnchorTokens(words[..k], interval)|;
            && q < |ts| && ts[q] == WordToken(words[k])
            && ((q + 1 < |ts| && ts[q + 1].Anchor?) <==> Triggers(words[k], LastAnchor(words[..k], interval), interval))
            && (q + 1 < |ts| && ts[q + 1].Anchor? ==> ts[q + 1].time == words[k].start)
  {
    var ts := AnchorTokens(words, interval);
    var upto := AnchorTokens(words[..k + 1], interval);
    var q := |AnchorTokens(words[..k], interval)|;
    WordPosition(words, interval, k);
    AnchorTokensStep(words, k, interval);
    AnchorTokensPrefix(words, k + 1, interval);
    if Triggers(words[k], LastAnchor(words[..k], interval), interval) {
      assert ts[q + 1] == upto[q + 1] == Anchor(words[k].start);
    } else {
      NoAnchorAfter(words, interval, k);
    }
  }

  /** Since the last anchor starts at `-interval`, the first word is followed by
      an anchor exactly when it starts at or after time zero. */
  lemma FirstWordAnchored(words: seq<Word>, interval: int)
    requires |words| > 0
    ensures var ts := AnchorTokens(words, interval);
            (|ts| > 1 && ts[1] == Anchor(words[0].start)) <==> words[0].start >= 0.0
  {
    AnchorTriggerIff(words, interval, 0);
    assert words[..0] == [];
  }

  /** The anchor times of a stream grow by the anchor, if any, that its last word adds. */
  lemma AnchorTimesStep(words: seq<Word>, interval: int)
    requires |words| > 0
    ensures var init := words[..|words| - 1];
            var w := words[|words| - 1];
            AnchorTimes(AnchorTokens(words, interval))
            == AnchorTimes(AnchorTokens(init, interval)) + (if Triggers(w, LastAnchor(init, interval), interval) then [w.start] else [])
  {
    var init := words[..|words| - 1];
    var w := words[|words| - 1];
    var extra: seq<Token> := if Triggers(w, LastAnchor(init, interval), interval) then [Anchor(w.start)] else [];
    AnchorTimesAppend(AnchorTokens(init, interval), [WordToken(w)]);
    AnchorTimesAppend(AnchorTokens(init, interval) + [WordToken(w)], extra);
    assert AnchorTimes([WordToken(w)]) == [] by {
      assert [WordToken(w)][..0] == [];
    }
    if extra != [] {
      assert AnchorTimes(extra) == [w.start] by {
        assert extra[..0] == [];
      }
    }
  }

  /** Consecutive times differ by at least `interval`. */
  predicate SpacedBy(at: seq<real>, interval: int) {
    forall j :: 0 <= j < |at| - 1 ==> at[j + 1] - at[j] >= interval as real
  }

  /** Anchor times are at least `interval` apart, the first is at or after
      time zero, and the last is the time the scan remembers. */
  lemma {:induction false} AnchorSpacing(words: seq<Word>, interval: int)
    ensures var at := AnchorTimes(AnchorTokens(words, interval));
            && LastAnchor(words, interval) == (if |at| == 0 then -(interval as real) else at[|at| - 1])
            && (|at| > 0 ==> at[0] >= 0.0)
            && SpacedBy(at, interval)
    decreases |words|
  {
    if |words| > 0 {
      var init := words[..|words| - 1];
      var w := words[|words| - 1];
      var before := AnchorTimes(AnchorTokens(init, interval));
      var at := AnchorTimes(AnchorTokens(words, interval));
      AnchorSpacing(init, interval);
      AnchorTimesStep(words, interval);
      if Triggers(w, LastAnchor(init, interval), interval) {
        assert at == before + [w.start];
        forall j | 0 <= j < |at| - 1
          ensures at[j + 1] - at[j] >= interval as real
        {
          if j + 1 < |before| {
            assert at[j] == before[j] && at[j + 1] == before[j + 1];
          } else {
            assert at[j] == before[|before| - 1] && at[j + 1] == w.start;
          }
        }
      } else {
        assert at == before;
      }
    }
  }

  /** The text of an anchor tag, `<t=...>`, with the time printed by `fmt`. */
  function AnchorText(t: real, fmt: real -> string): string {
    "<t=" + fmt(t) + ">"
  }

  function TokenText(t: Token, fmt: real -> string): string {
    match t
    case WordToken(w) => w.text
    case Anchor(time) => AnchorText(time, fmt)
  }

  function Render(ts: seq<Token>, fmt: real -> string): (pieces: seq<string>)
    ensures |pieces| == |ts|
  {
    seq(|ts|, i requires 0 <= i < |ts| => TokenText(ts[i], fmt))
  }

  /** The total length of the strings in `xs`. */
  function TotalLength(xs: seq<string>): nat {
    if |xs| == 0 then 0 else TotalLength(xs[..|xs| - 1]) + |xs[|xs| - 1]|
  }

  /** Python's `" ".join(xs)`. */
  function JoinSpace(xs: seq<string>): string {
    if |xs| == 0 then ""
    else if |xs| == 1 then xs[0]
    else JoinSpace(xs[..|xs| - 1]) + " " + xs[|xs| - 1]
  }

  /** The joined text is empty for no pieces; otherwise it starts with the
      first piece, ends with the last, and adds exactly one space between
      each two neighbours. */
  lemma {:induction false} JoinSpaceShape(xs: seq<string>)
    ensures var s := JoinSpace(xs);
            && (|xs| == 0 ==> s == "")
            && (|xs| > 0 ==> |s| == TotalLength(xs) + |xs| - 1)
            && (|xs| > 0 ==> |s| >= |xs[0]| && s[..|xs[0]|] == xs[0])
            && (|xs| > 0 ==> |s| >= |xs[|xs| - 1]| && s[|s| - |xs[|xs| - 1]|..] == xs[|xs| - 1])
  {
    if |xs| > 1 {
      var init := xs[..|xs| - 1];
      JoinSpaceShape(init);
      var j := JoinSpace(init);
      assert init[0] == xs[0];
      assert (j + " " + xs[|xs| - 1])[..|xs[0]|] == j[..|xs[0]|];
    }
  }

  lemma JoinSpaceSnoc(xs: seq<string>, y: string)
    ensures JoinSpace(xs + [y]) == if |xs| == 0 then y else JoinSpace(xs) + " " + y
  {
    assert (xs + [y])[..|xs|] == xs;
  }

  lemma RenderSnoc(ts: seq<Token>, t: Token, fmt: real -> string)
    ensures Render(ts + [t], fmt) == Render(ts, fmt) + [TokenText(t, fmt)]
  {
  }

  /** The source's output pieces with the pending sentence flushed into them. */
  function Flush(pieces: seq<string>, sentence: seq<string>): seq<string> {
    if |sentence| == 0 then pieces else pieces + [JoinSpace(sentence)]
  }

  /** Adding a word to the pending sentence extends the flushed text by that word. */
  lemma FlushAddWord(pieces: seq<string>, sentence: seq<string>, x: string)
    ensures |Flush(pieces, sentence + [x])| > 0
    ensures JoinSpace(Flush(pieces, sentence + [x]))
            == if |Flush(pieces, sentence)| == 0 then x else JoinSpace(Flush(pieces, sentence)) + " " + x
  {
    if |sentence| == 0 {
      assert sentence + [x] == [x];
      JoinSpaceSnoc(pieces, x);
    } else {
      var j := JoinSpace(sentence);
      JoinSpaceSnoc(sentence, x);
      assert Flush(pieces, sentence + [x]) == pieces + [j + " " + x];
      assert Flush(pieces, sentence) == pieces + [j];
      ExtendLastPiece(pieces, j, x);
    }
  }

  /** Appending `" " + x` to the last piece appends it to the joined text. */
  lemma ExtendLastPiece(pieces: seq<string>, j: string, x: string)
    ensures JoinSpace(pieces + [j + " " + x]) == JoinSpace(pieces + [j]) + " " + x
  {
    JoinSpaceSnoc(pieces, j + " " + x);
    JoinSpaceSnoc(pieces, j);
    if |pieces| > 0 {
      var head := JoinSpace(pieces);
      assert head + " " + (j + " " + x) == head + " " + j + " " + x;
    }
  }

  /** The source's output pieces and pending sentence, flushed and joined,
      spell the same text as the rendered token stream, and both are empty
      together. */
  predicate Mirrors(pieces: seq<string>, sentence: seq<string>, emitted: seq<Token>, fmt: real -> string) {
    && JoinSpace(Flush(pieces, sentence)) == JoinSpace(Render(emitted, fmt))
    && (|Flush(pieces, sentence)| == 0 <==> |emitted| == 0)
  }

  /** Appending a word to the pending sentence mirrors appending its token. */
  lemma WordStep(pieces: seq<string>, sentence: seq<string>, emitted: seq<Token>, w: Word, fmt: real -> string)
    requires Mirrors(pieces, sentence, emitted, fmt)
    ensures Mirrors(pieces, sentence + [w.text], emitted + [WordToken(w)], fmt)
  {
    FlushAddWord(pieces, sentence, w.text);
    RenderSnoc(emitted, WordToken(w), fmt);
    JoinSpaceSnoc(Render(emitted, fmt), w.text);
  }

  /** Flushing the sentence and appending an anchor tag mirrors appending the anchor token. */
  lemma AnchorStep(pieces: seq<string>, sentence: seq<string>, emitted: seq<Token>, t: real, fmt: real -> string)
    requires |sentence| > 0 && |emitted| > 0
    requires Mirrors(pieces, sentence, emitted, fmt)
    ensures Mirrors(pieces + [JoinSpace(sentence)] + [AnchorText(t, fmt)], [], emitted + [Anchor(t)], fmt)
  {
    JoinSpaceSnoc(pieces + [JoinSpace(sentence)], AnchorText(t, fmt));
    RenderSnoc(emitted, Anchor(t), fmt);
    JoinSpaceSnoc(Render(emitted, fmt), AnchorText(t, fmt));
  }

  /** The flattening loop: each segment's words appended in turn. */
  method CollectWords(segments: seq<Segment>) returns (allWords: seq<Word>)
    ensures allWords == Flatten(segments)
  {
    allWords := [];
    var s := 0;
    while s < |segments|
      invariant 0 <= s <= |segments|
      invariant allWords == Flatten(segments[..s])
    {
      assert segments[..s + 1][..s] == segments[..s];
      allWords := allWords + segments[s].words;
      s := s + 1;
    }
    assert segments[..|segments|] == segments;
  }

  /** `_inject_time_anchors(segments, interval)` as the source writes it: a
      sentence buffer flushed into the output before each anchor tag and once
      at the end, everything joined by spaces. The result is the space-joined
      rendering of the anchor stream of the flattened words; with no words it
      is the empty string. */
  method InjectTimeAnchors(segments: seq<Segment>, interval: int, fmt: real -> string) returns (text: string)
    ensures text == JoinSpace(Render(AnchorTokens(Flatten(segments), interval), fmt))
    ensures Flatten(segments) == [] ==> text == ""
  {
    var allWords := CollectWords(segments);
    var pieces: seq<string> := [];
    var sentence: seq<string> := [];
    var lastAnchor := -(interval as real);
    ghost var emitted: seq<Token> := [];
    var i := 0;
    while i < |allWords|
      invariant 0 <= i <= |allWords|
      invariant lastAnchor == LastAnchor(allWords[..i], interval)
      invariant emitted == AnchorTokens(allWords[..i], interval)
      invariant Mirrors(pieces, sentence, emitted, fmt)
    {
      var w := allWords[i];
      AnchorTokensStep(allWords, i, interval);
      WordStep(pieces, sentence, emitted, w, fmt);
      sentence := sentence + [w.text];
      emitted := emitted + [WordToken(w)];
      if w.start - lastAnchor >= interval as real {
        AnchorStep(pieces, sentence, emitted, w.start, fmt);
        pieces := pieces + [JoinSpace(sentence)] + [AnchorText(w.start, fmt)];
        sentence := [];
        emitted := emitted + [Anchor(w.start)];
        lastAnchor := w.start;
      }
      i := i + 1;
    }
    assert allWords[..|allWords|] == allWords;
    if |sentence| > 0 {
      pieces := pieces + [JoinSpace(sentence)];
    }
    text := JoinSpace(pieces);
  }

  /** Words at 0 s, 10 s and 40 s with the default 30-second interval: the
      first word is anchored because the scan starts one interval before 0,
      the second is too close to it, and the third is 40 s after it. */
  lemma DefaultIntervalExample()
    ensures var a := Word("a", 0.0, 1.0);
            var b := Word("b", 10.0, 11.0);
            var c := Word("c", 40.0, 41.0);
            AnchorTokens([a, b, c], DefaultIntervalSec)
              == [WordToken(a), Anchor(0.0), WordToken(b), WordToken(c), Anchor(40.0)]
  {
    var a := Word("a", 0.0, 1.0);
    var b := Word("b", 10.0, 11.0);
    var c := Word("c", 40.0, 41.0);
    assert [a, b, c][..2] == [a, b];
    assert [a, b][..1] == [a];
    assert [a][..0] == [];
    assert LastAnchor([a], DefaultIntervalSec) == 0.0;
    assert LastAnchor([a, b], DefaultIntervalSec) == 0.0;
    assert AnchorTokens([a], DefaultIntervalSec) == [WordToken(a), Anchor(0.0)];
    assert AnchorTokens([a, b], DefaultIntervalSec) == [WordToken(a), Anchor(0.0), WordToken(b)];
  }
}
