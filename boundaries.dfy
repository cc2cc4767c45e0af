/**
 * Slide boundary detection (`detect_slide_boundaries`): frames are sampled every
 * `Interval` seconds below the truncated duration; frames without keywords are skipped;
 * each kept sample is compared with the previous kept sample, and a boundary is placed at
 * a sample that is dissimilar to its predecessor. The list is bracketed by `0.0` and the
 * duration.
 *
 * Oracles: `frameKeywords(t)` is the keyword string of the frame at second `t` (frame
 * extraction, OCR and the keyword filter together); `dissimilar(cur, prev)` stands for
 * "the cosine similarity of the embeddings of `cur` and `prev` is below 0.85".
 */
module SlideBoundaries {

  /** Seconds between two sampled frames. */
  const Interval: nat := 5

  /** A kept sample: its timestamp and its non-empty keyword string. */
  datatype OcrSample = OcrSample(t: int, keywords: string)

  /** Python's `int(x)` for a float: truncation toward zero. */
  function TruncToInt(x: real): (n: int)
    ensures x >= 0.0 ==> 0 <= n && n as real <= x < n as real + 1.0
    ensures x < 0.0 ==> n <= 0
  {
    if x >= 0.0 then x.Floor else -((-x).Floor)
  }

  /** `range(0, stop, Interval)`. */
  function Grid(stop: int): seq<int>
  {
    seq(if stop <= 0 then 0 else (stop + Interval - 1) / Interval, j => j * Interval)
  }

  /** The sampled timestamps of a video: `range(0, int(duration), Interval)`. */
  function SampleTimes(duration: real): seq<int>
  {
    Grid(TruncToInt(duration))
  }

  /** The grid holds exactly the multiples of `Interval` in `[0, stop)`, in increasing order. */
  lemma GridSpec(stop: int)
    ensures forall j | 0 <= j < |Grid(stop)| :: Grid(stop)[j] == j * Interval && 0 <= Grid(stop)[j] < stop
    ensures forall t :: 0 <= t < stop && t % Interval == 0 ==> t in Grid(stop)
  {
    var g := Grid(stop);
    forall t | 0 <= t < stop && t % Interval == 0 ensures t in g {
      assert g[t / Interval] == t;
    }
  }

  /** The list of times is strictly increasing. */
  predicate Increasing(ts: seq<int>) {
    forall i, j | 0 <= i < j < |ts| :: ts[i] < ts[j]
  }

  /** The samples are in strictly increasing time order. */
  predicate SortedSamples(s: seq<OcrSample>) {
    forall i, j | 0 <= i < j < |s| :: s[i].t < s[j].t
  }

  /** Each sample comes from a time in `times` whose frame had keywords, and records them. */
  predicate FromFrames(s: seq<OcrSample>, times: seq<int>, frameKeywords: int -> string, skipOcr: bool) {
    forall i | 0 <= i < |s| ::
      s[i].t in times && !skipOcr && s[i].keywords == frameKeywords(s[i].t) && s[i].keywords != ""
  }

  /** `e` holds, position by position, what was embedded for each sample of `s`: its keyword string. */
  predicate EmbeddingsOf(e: seq<string>, s: seq<OcrSample>) {
    |e| == |s| && forall i | 0 <= i < |s| :: e[i] == s[i].keywords
  }

  /** One kept sample more: its keyword string is embedded, and the boundary list grows when it differs from the last one. */
  lemma DetectStep(e: seq<string>, s: seq<OcrSample>, x: OcrSample, b: seq<real>, dissimilar: (string, string) -> bool)
    requires EmbeddingsOf(e, s) && b == [0.0] + Detected(s, dissimilar)
    ensures EmbeddingsOf(e + [x.keywords], s + [x])
    ensures [0.0] + Detected(s + [x], dissimilar)
         == (if |e| >= 1 && dissimilar(x.keywords, e[|e| - 1]) then b + [x.t as real] else b)
  {
    DetectedSnoc(s, x, dissimilar);
  }

  /** Some sample was taken at `t`. */
  predicate SampledAt(s: seq<OcrSample>, t: int) {
    exists i | 0 <= i < |s| :: s[i].t == t
  }

  /** What the frame at `t` contributes: a sample when OCR runs and the frame has keywords. */
  function SampleOf(t: int, frameKeywords: int -> string, skipOcr: bool): seq<OcrSample>
  {
    if !skipOcr && frameKeywords(t) != "" then [OcrSample(t, frameKeywords(t))] else []
  }

  /** The samples kept from the frames at `times`, in the order of `times`. */
  function Samples(times: seq<int>, frameKeywords: int -> string, skipOcr: bool): seq<OcrSample>
  {
    if times == [] then []
    else Samples(times[..|times| - 1], frameKeywords, skipOcr) + SampleOf(times[|times| - 1], frameKeywords, skipOcr)
  }

  /** Sample `j` differs from its predecessor in the sequence of kept samples. */
  predicate BoundaryAt(s: seq<OcrSample>, j: int, dissimilar: (string, string) -> bool) {
    1 <= j < |s| && dissimilar(s[j].keywords, s[j - 1].keywords)
  }

  /** The detected interior boundaries: one per kept sample that differs from the kept sample before it. */
  function Detected(s: seq<OcrSample>, dissimilar: (string, string) -> bool): seq<real>
  {
    if |s| < 2 then []
    else
      Detected(s[..|s| - 1], dissimilar)
      + (if dissimilar(s[|s| - 1].keywords, s[|s| - 2].keywords) then [s[|s| - 1].t as real] else [])
  }

  /** The boundary list returned for the kept samples `s`. */
  function BoundaryList(s: seq<OcrSample>, dissimilar: (string, string) -> bool, duration: real): seq<real>
  {
    [0.0] + Detected(s, dissimilar) + [duration]
  }

  /**
   * `detect_slide_boundaries`: returns the kept samples (`ocr_texts`) and the boundary list.
   * `embeddings` holds, for each kept sample, what is embedded (its keyword string).
   */
  method DetectSlideBoundaries(duration: real, frameKeywords: int -> string,
                               dissimilar: (string, string) -> bool, skipOcr: bool)
    returns (ocrTexts: seq<OcrSample>, boundaries: seq<real>)
    ensures ocrTexts == Samples(SampleTimes(duration), frameKeywords, skipOcr)
    ensures boundaries == BoundaryList(ocrTexts, dissimilar, duration)
  {
    var times := SampleTimes(duration);
    ocrTexts := [];
    var embeddings: seq<string> := [];
    boundaries := [0.0];
    var k := 0;
    while k < |times|
      invariant 0 <= k <= |times|
      invariant ocrTexts == Samples(times[..k], frameKeywords, skipOcr)
      invariant EmbeddingsOf(embeddings, ocrTexts)
      invariant boundaries == [0.0] + Detected(ocrTexts, dissimilar)
    {
      var t := times[k];
      SamplesPrefix(times, k, frameKeywords, skipOcr);
      k := k + 1;
      if !skipOcr {
        var keywords := frameKeywords(t);
        if keywords != "" {
          var sample := OcrSample(t, keywords);
          DetectStep(embeddings, ocrTexts, sample, boundaries, dissimilar);
          ocrTexts := ocrTexts + [sample];
          embeddings := embeddings + [keywords];
          if |embeddings| >= 2 && dissimilar(embeddings[|embeddings| - 1], embeddings[|embeddings| - 2]) {
            boundaries := boundaries + [t as real];
          }
        }
      }
    }
    assert times[..k] == times;
    boundaries := boundaries + [duration];
  }

  /** One more kept sample adds a boundary exactly when it differs from the previous kept sample. */
  lemma DetectedSnoc(s: seq<OcrSample>, x: OcrSample, dissimilar: (string, string) -> bool)
    ensures Detected(s + [x], dissimilar)
         == Detected(s, dissimilar) + (if |s| >= 1 && dissimilar(x.keywords, s[|s| - 1].keywords) then [x.t as real] else [])
  {
    assert (s + [x])[..|s|] == s;
  }

  lemma SamplesPrefix(times: seq<int>, k: nat, frameKeywords: int -> string, skipOcr: bool)
    requires k < |times|
    ensures Samples(times[..k + 1], frameKeywords, skipOcr)
         == Samples(times[..k], frameKeywords, skipOcr) + SampleOf(times[k], frameKeywords, skipOcr)
  {
    assert times[..k + 1][..k] == times[..k];
  }

  lemma SamplesSnoc(times: seq<int>, t: int, frameKeywords: int -> string, skipOcr: bool)
    ensures Samples(times + [t], frameKeywords, skipOcr)
         == Samples(times, frameKeywords, skipOcr) + SampleOf(t, frameKeywords, skipOcr)
  {
    assert (times + [t])[..|times|] == times;
  }

  /** Every kept sample comes from a sampled time whose frame had keywords, and records them. */
  lemma {:induction false} SamplesFromFrames(times: seq<int>, frameKeywords: int -> string, skipOcr: bool)
    ensures FromFrames(Samples(times, frameKeywords, skipOcr), times, frameKeywords, skipOcr)
  {
    if times != [] {
      var init, last := times[..|times| - 1], times[|times| - 1];
      assert times == init + [last];
      SamplesFromFrames(init, frameKeywords, skipOcr);
      SamplesSnoc(init, last, frameKeywords, skipOcr);
      var s0 := Samples(init, frameKeywords, skipOcr);
      var s := Samples(times, frameKeywords, skipOcr);
      forall i | 0 <= i < |s|
        ensures s[i].t in times && !skipOcr && s[i].keywords == frameKeywords(s[i].t) && s[i].keywords != ""
      {
        if i < |s0| { assert s[i] == s0[i] && s0[i].t in init; }
      }
    }
  }

  /** Samples are kept in the order of the sampled times. */
  lemma {:induction false} SamplesSorted(times: seq<int>, frameKeywords: int -> string, skipOcr: bool)
    requires Increasing(times)
    ensures SortedSamples(Samples(times, frameKeywords, skipOcr))
  {
    if times != [] {
      var init, last := times[..|times| - 1], times[|times| - 1];
      assert times == init + [last];
      SamplesSorted(init, frameKeywords, skipOcr);
      SamplesFromFrames(init, frameKeywords, skipOcr);
      SamplesSnoc(init, last, frameKeywords, skipOcr);
      var s0 := Samples(init, frameKeywords, skipOcr);
      assert forall i | 0 <= i < |s0| :: s0[i].t < last by {
        forall i | 0 <= i < |s0| ensures s0[i].t < last {
          var k :| 0 <= k < |init| && init[k] == s0[i].t;
          assert times[k] < times[|times| - 1];
        }
      }
    }
  }

  /** Every sampled time whose frame has keywords gives a kept sample (unless OCR is skipped). */
  lemma {:induction false} SamplesComplete(times: seq<int>, frameKeywords: int -> string, skipOcr: bool)
    ensures forall t | t in times && !skipOcr && frameKeywords(t) != "" ::
              SampledAt(Samples(times, frameKeywords, skipOcr), t)
  {
    if times != [] {
      var init, last := times[..|times| - 1], times[|times| - 1];
      assert times == init + [last];
      SamplesComplete(init, frameKeywords, skipOcr);
      SamplesSnoc(init, last, frameKeywords, skipOcr);
      var s0 := Samples(init, frameKeywords, skipOcr);
      var s := Samples(times, frameKeywords, skipOcr);
      forall t | t in times && !skipOcr && frameKeywords(t) != "" ensures SampledAt(s, t) {
        if t == last {
          assert s[|s0|].t == t;
        } else {
          assert t in init;
          var i :| 0 <= i < |s0| && s0[i].t == t;
          assert s[i].t == t;
        }
      }
    }
  }

  /** With OCR skipped, or no sampled frame yielding keywords, nothing is kept. */
  lemma {:induction false} NoSamples(times: seq<int>, frameKeywords: int -> string, skipOcr: bool)
    requires skipOcr || forall t | t in times :: frameKeywords(t) == ""
    ensures Samples(times, frameKeywords, skipOcr) == []
  {
    if times != [] {
      var init, last := times[..|times| - 1], times[|times| - 1];
      assert last in times;
      assert forall t | t in init :: t in times;
      NoSamples(init, frameKeywords, skipOcr);
    }
  }

  /** The interior boundaries are exactly the timestamps of samples that differ from their predecessors. */
  lemma {:induction false} DetectedMembership(s: seq<OcrSample>, dissimilar: (string, string) -> bool, x: real)
    ensures x in Detected(s, dissimilar) <==> exists j :: BoundaryAt(s, j, dissimilar) && s[j].t as real == x
  {
    if |s| >= 2 {
      var init := s[..|s| - 1];
      DetectedMembership(init, dissimilar, x);
      if x in Detected(init, dissimilar) {
        var j :| BoundaryAt(init, j, dissimilar) && init[j].t as real == x;
        assert BoundaryAt(s, j, dissimilar);
      }
      forall j | BoundaryAt(s, j, dissimilar) && s[j].t as real == x && j < |s| - 1
        ensures x in Detected(init, dissimilar)
      {
        assert BoundaryAt(init, j, dissimilar);
      }
    } else {
      assert forall j :: !BoundaryAt(s, j, dissimilar);
    }
  }

  /** `d` is strictly increasing and lies in the half-open interval `(lo, hi]`. */
  predicate OrderedWithin(d: seq<real>, lo: real, hi: real) {
    (forall i, j | 0 <= i < j < |d| :: d[i] < d[j]) && (forall i | 0 <= i < |d| :: lo < d[i] <= hi)
  }

  /** Interior boundaries are sample times after the first sample, in strictly increasing order. */
  lemma {:induction false} DetectedOrdered(s: seq<OcrSample>, dissimilar: (string, string) -> bool)
    requires SortedSamples(s)
    ensures |s| > 0 ==> OrderedWithin(Detected(s, dissimilar), s[0].t as real, s[|s| - 1].t as real)
    ensures |s| == 0 ==> Detected(s, dissimilar) == []
  {
    if |s| >= 2 {
      var init, x := s[..|s| - 1], s[|s| - 1];
      assert s == init + [x];
      assert SortedSamples(init);
      DetectedOrdered(init, dissimilar);
      DetectedSnoc(init, x, dissimilar);
      var d0 := Detected(init, dissimilar);
      assert init[0] == s[0] && init[|init| - 1] == s[|s| - 2];
      assert s[|s| - 2].t < x.t && s[0].t < x.t;
      assert forall i | 0 <= i < |d0| :: d0[i] < x.t as real;
    }
  }

  /** A frame without keywords (or any frame, when OCR is skipped) never becomes a boundary. */
  lemma EmptyFrameNeverBoundary(duration: real, frameKeywords: int -> string,
                                dissimilar: (string, string) -> bool, skipOcr: bool, t: int)
    requires frameKeywords(t) == "" || skipOcr
    ensures t as real !in Detected(Samples(SampleTimes(duration), frameKeywords, skipOcr), dissimilar)
  {
    var times := SampleTimes(duration);
    var s := Samples(times, frameKeywords, skipOcr);
    SamplesFromFrames(times, frameKeywords, skipOcr);
    DetectedMembership(s, dissimilar, t as real);
    forall j | BoundaryAt(s, j, dissimilar) ensures s[j].t != t {
      assert s[j].keywords == frameKeywords(s[j].t) != "" && !skipOcr;
    }
  }

  /** The shape every boundary list has: bracketed by `0.0` and the duration, sorted, interior strictly inside. */
  predicate WellFormedBoundaries(b: seq<real>, duration: real) {
    |b| >= 2 && b[0] == 0.0 && b[|b| - 1] == duration
    && (forall i, j | 0 <= i < j < |b| :: b[i] <= b[j])
    && (forall i | 0 < i < |b| - 1 :: 0.0 < b[i] < duration && b[i] < b[i + 1])
  }

  /** Sorted samples inside `[0, duration)` give a well-formed boundary list. */
  lemma BoundaryListWellFormed(s: seq<OcrSample>, dissimilar: (string, string) -> bool, duration: real)
    requires duration >= 0.0 && SortedSamples(s)
    requires forall i | 0 <= i < |s| :: 0 <= s[i].t && (s[i].t as real) < duration
    ensures WellFormedBoundaries(BoundaryList(s, dissimilar, duration), duration)
  {
    DetectedOrdered(s, dissimilar);
    var d := Detected(s, dissimilar);
    var b := BoundaryList(s, dissimilar, duration);
    assert |b| == |d| + 2 && b[0] == 0.0 && b[|b| - 1] == duration;
    assert forall i | 0 < i < |b| - 1 :: b[i] == d[i - 1];
    assert forall i | 0 <= i < |d| :: 0.0 < d[i] < duration by {
      if |d| > 0 {
        assert OrderedWithin(d, s[0].t as real, s[|s| - 1].t as real);
      }
    }
    forall i, j | 0 <= i < j < |b| ensures b[i] <= b[j] {
      if 0 < i && j < |b| - 1 {
        assert b[i] == d[i - 1] && b[j] == d[j - 1];
      }
    }
  }

  /** Every kept sample lies in `[0, duration)` and the kept samples are sorted. */
  lemma SamplesInVideo(duration: real, frameKeywords: int -> string, skipOcr: bool)
    requires duration >= 0.0
    ensures var s := Samples(SampleTimes(duration), frameKeywords, skipOcr);
            SortedSamples(s) && forall i | 0 <= i < |s| :: 0 <= s[i].t && (s[i].t as real) < duration
  {
    var times := SampleTimes(duration);
    var stop := TruncToInt(duration);
    GridSpec(stop);
    SamplesSorted(times, frameKeywords, skipOcr);
    SamplesFromFrames(times, frameKeywords, skipOcr);
    var s := Samples(times, frameKeywords, skipOcr);
    forall i | 0 <= i < |s| ensures 0 <= s[i].t && (s[i].t as real) < duration {
      assert s[i].t in times;
      var z :| 0 <= z < |times| && times[z] == s[i].t;
    }
  }

  /**
   * The boundary list of a video of non-negative duration starts with `0.0`, ends with the
   * duration and is sorted; its interior entries are strictly increasing and strictly between
   * 0 and the duration.
   */
  lemma BoundariesWellFormed(duration: real, frameKeywords: int -> string,
                             dissimilar: (string, string) -> bool, skipOcr: bool)
    requires duration >= 0.0
    ensures WellFormedBoundaries(BoundaryList(Samples(SampleTimes(duration), frameKeywords, skipOcr), dissimilar, duration), duration)
  {
    SamplesInVideo(duration, frameKeywords, skipOcr);
    BoundaryListWellFormed(Samples(SampleTimes(duration), frameKeywords, skipOcr), dissimilar, duration);
  }

  /** With no frame yielding keywords, or OCR skipped, the whole video is one slide. */
  lemma NoKeywordsOneSlide(duration: real, frameKeywords: int -> string,
                           dissimilar: (string, string) -> bool, skipOcr: bool)
    requires skipOcr || forall t | t in SampleTimes(duration) :: frameKeywords(t) == ""
    ensures Samples(SampleTimes(duration), frameKeywords, skipOcr) == []
    ensures BoundaryList(Samples(SampleTimes(duration), frameKeywords, skipOcr), dissimilar, duration) == [0.0, duration]
  {
    NoSamples(SampleTimes(duration), frameKeywords, skipOcr);
  }
}
