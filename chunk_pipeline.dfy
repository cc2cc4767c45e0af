/**
 * The whole of the two earlier video scripts around the chunker: a first transcription
 * (ending the script with status 1 when it yields no segment at all), a first chunking
 * pass, an OCR pass over its chunks whose successful readings become a prompt of at most
 * 200 characters, a second transcription with that prompt, a second chunking pass and OCR
 * pass, and the ids `"{video_id}-chunk{i}"` under which the second pass's chunks are stored.
 *
 * Whisper is `transcribe`, from the optional initial prompt to the segment list; ffmpeg's
 * frame grab and Tesseract together are `recognise`, from a time to an outcome; the
 * iteration order of a Python `set` is `order`.
 */
module ChunkPipeline {
  import opened Wrappers
  import opened Text
  import opened VideoDetails
  import opened TranscriptChunker

  /** What grabbing and reading the frame at one time gives: a text, the ffmpeg timeout, or another exception. */
  datatype OcrOutcome = Recognized(text: string) | TimedOut | Failed

  /** The end of a script run: an exit status, or the three lists handed to the vector store. */
  datatype Outcome = Exited(status: int) | Stored(documents: seq<string>, metadatas: seq<ChunkMeta>, ids: seq<string>)

  /** The time at which a chunk's frame is read: the middle of the chunk. */
  function MidTime(m: ChunkMeta): real
  {
    (m.start + m.end) / 2.0
  }

  /** The `"ocr"` entry for one outcome: the stripped reading, or `""` on a timeout or an exception. */
  function OcrEntry(o: OcrOutcome): string
  {
    if o.Recognized? then Strip(o.text) else ""
  }

  /** One record after the OCR pass: its `"ocr"` entry is set from the reading at its midpoint. */
  function WithOcr(m: ChunkMeta, recognise: real -> OcrOutcome): ChunkMeta
  {
    m.(ocr := Some(OcrEntry(recognise(MidTime(m)))))
  }

  /** The records after the OCR pass. */
  function Filled(ms: seq<ChunkMeta>, recognise: real -> OcrOutcome): seq<ChunkMeta>
  {
    seq(|ms|, j requires 0 <= j < |ms| => WithOcr(ms[j], recognise))
  }

  /** The successful readings of the OCR pass, in record order. */
  function Readings(ms: seq<ChunkMeta>, recognise: real -> OcrOutcome): seq<string>
  {
    if ms == [] then []
    else
      var o := recognise(MidTime(ms[|ms| - 1]));
      Readings(ms[..|ms| - 1], recognise) + (if o.Recognized? then [Strip(o.text)] else [])
  }

  lemma ReadingsPrefix(ms: seq<ChunkMeta>, k: nat, recognise: real -> OcrOutcome)
    requires k < |ms|
    ensures Readings(ms[..k + 1], recognise) ==
            Readings(ms[..k], recognise)
            + (if recognise(MidTime(ms[k])).Recognized? then [Strip(recognise(MidTime(ms[k])).text)] else [])
  {
    assert ms[..k + 1][..k] == ms[..k];
  }

  /** The OCR loop over the records, setting each record's `"ocr"` entry in place. */
  method FillOcr(metadatas: array<ChunkMeta>, recognise: real -> OcrOutcome) returns (readings: seq<string>)
    modifies metadatas
    ensures metadatas[..] == Filled(old(metadatas[..]), recognise)
    ensures readings == Readings(old(metadatas[..]), recognise)
  {
    ghost var original := metadatas[..];
    readings := [];
    var i := 0;
    while i < metadatas.Length
      invariant 0 <= i <= metadatas.Length
      invariant forall j | 0 <= j < i :: metadatas[j] == WithOcr(original[j], recognise)
      invariant forall j | i <= j < metadatas.Length :: metadatas[j] == original[j]
      invariant readings == Readings(original[..i], recognise)
    {
      ReadingsPrefix(original, i, recognise);
      var meta := metadatas[i];
      var midTime := (meta.start + meta.end) / 2.0;
      assert meta == original[i] && midTime == MidTime(meta);
      var outcome := recognise(midTime);
      if outcome.Recognized? {
        var ocrText := Strip(outcome.text);
        metadatas[i] := meta.(ocr := Some(ocrText));
        readings := readings + [ocrText];
      } else {
        // the ffmpeg timeout and every other exception
        metadatas[i] := meta.(ocr := Some(""));
      }
      assert metadatas[i] == WithOcr(original[i], recognise);
      i := i + 1;
    }
    assert original[..i] == original;
  }

  /** Every entry has the `"ocr"` key; the other fields are untouched; a failed reading leaves `""`. */
  lemma FilledRecords(ms: seq<ChunkMeta>, recognise: real -> OcrOutcome)
    ensures |Filled(ms, recognise)| == |ms|
    ensures forall j | 0 <= j < |ms| ::
              var m, o := Filled(ms, recognise)[j], recognise(MidTime(ms[j]));
              && m.ocr.Some? && IsStripped(m.ocr.value)
              && m.(ocr := ms[j].ocr) == ms[j]
              && (o.Recognized? ==> m.ocr.value == Strip(o.text))
              && (!o.Recognized? ==> m.ocr.value == "")
  {
  }

  /** Record `j`'s frame was read successfully, giving `x` once stripped. */
  predicate ReadAt(ms: seq<ChunkMeta>, recognise: real -> OcrOutcome, j: int, x: string) {
    0 <= j < |ms| && recognise(MidTime(ms[j])).Recognized? && Strip(recognise(MidTime(ms[j])).text) == x
  }

  lemma ReadAtPrefix(ms: seq<ChunkMeta>, k: nat, recognise: real -> OcrOutcome, j: int, x: string)
    requires k <= |ms| && j < k
    ensures ReadAt(ms[..k], recognise, j, x) <==> ReadAt(ms, recognise, j, x)
  {
    if 0 <= j {
      assert ms[..k][j] == ms[j];
    }
  }

  lemma {:induction false} ReadingsLength(ms: seq<ChunkMeta>, recognise: real -> OcrOutcome)
    ensures |Readings(ms, recognise)| <= |ms|
  {
    if ms != [] {
      ReadingsLength(ms[..|ms| - 1], recognise);
    }
  }

  lemma {:induction false} ReadingHasRecord(ms: seq<ChunkMeta>, recognise: real -> OcrOutcome, x: string)
    requires x in Readings(ms, recognise)
    ensures exists j :: ReadAt(ms, recognise, j, x)
  {
    var n := |ms|;
    var init := ms[..n - 1];
    ReadingsPrefix(ms, n - 1, recognise);
    assert ms[..n] == ms;
    if x in Readings(init, recognise) {
      ReadingHasRecord(init, recognise, x);
      var j :| ReadAt(init, recognise, j, x);
      ReadAtPrefix(ms, n - 1, recognise, j, x);
    } else {
      assert ReadAt(ms, recognise, n - 1, x);
    }
  }

  lemma {:induction false} RecordHasReading(ms: seq<ChunkMeta>, recognise: real -> OcrOutcome, j: int, x: string)
    requires ReadAt(ms, recognise, j, x)
    ensures x in Readings(ms, recognise)
  {
    var n := |ms|;
    var init := ms[..n - 1];
    ReadingsPrefix(ms, n - 1, recognise);
    assert ms[..n] == ms;
    var r0 := Readings(init, recognise);
    if j < n - 1 {
      ReadAtPrefix(ms, n - 1, recognise, j, x);
      RecordHasReading(init, recognise, j, x);
      var k :| 0 <= k < |r0| && r0[k] == x;
      assert Readings(ms, recognise)[k] == x;
    } else {
      assert Readings(ms, recognise) == r0 + [x];
      assert Readings(ms, recognise)[|r0|] == x;
    }
  }

  /** The prompt list holds exactly the readings of the records whose frame was read. */
  lemma ReadingsAreEntries(ms: seq<ChunkMeta>, recognise: real -> OcrOutcome, x: string)
    ensures x in Readings(ms, recognise) <==> exists j :: ReadAt(ms, recognise, j, x)
  {
    if x in Readings(ms, recognise) {
      ReadingHasRecord(ms, recognise, x);
    }
    forall j | ReadAt(ms, recognise, j, x) ensures x in Readings(ms, recognise) {
      RecordHasReading(ms, recognise, j, x);
    }
  }

  /** The prompt list, with the records' entries: each successful reading is its record's entry. */
  lemma ReadingsInRecords(ms: seq<ChunkMeta>, recognise: real -> OcrOutcome, x: string)
    ensures x in Readings(ms, recognise) <==>
            exists j | 0 <= j < |ms| :: recognise(MidTime(ms[j])).Recognized? && Filled(ms, recognise)[j].ocr == Some(x)
  {
    ReadingsAreEntries(ms, recognise, x);
    forall j | 0 <= j < |ms|
      ensures (recognise(MidTime(ms[j])).Recognized? && Filled(ms, recognise)[j].ocr == Some(x)) <==> ReadAt(ms, recognise, j, x)
    {
      assert Filled(ms, recognise)[j] == WithOcr(ms[j], recognise);
    }
  }

  // ---- the prompt and the ids ----

  /** `" ".join(set(readings)).strip()[:200]`, with `order` listing the set's elements. */
  function OcrPrompt(readings: seq<string>, order: set<string> -> seq<string>): (prompt: string)
    ensures |prompt| <= PromptLimit
  {
    Truncate(Strip(Join(" ", order(set x | x in readings))), PromptLimit)
  }

  /** `order` lists only elements of `s`, as iterating over a set does. */
  predicate ListsOnly(order: set<string> -> seq<string>, s: set<string>) {
    forall i | 0 <= i < |order(s)| :: order(s)[i] in s
  }

  /** When no frame was read successfully, or every reading was empty, the prompt is empty. */
  lemma OcrPromptBlank(readings: seq<string>, order: set<string> -> seq<string>)
    requires ListsOnly(order, set x | x in readings)
    requires forall i | 0 <= i < |readings| :: readings[i] == ""
    ensures OcrPrompt(readings, order) == ""
  {
    var listed := order(set x | x in readings);
    assert AllBlankParts(listed) by {
      forall i | 0 <= i < |listed| ensures AllSpace(listed[i]) {
        assert listed[i] in set x | x in readings;
      }
    }
    JoinAllSpace(" ", listed);
    StripAllSpace(Join(" ", listed));
  }

  /** The id of chunk `i`. */
  function ChunkId(videoId: string, i: nat): string
  {
    videoId + "-chunk" + NatToString(i)
  }

  /** `[f"{video_id}-chunk{i}" for i in range(n)]`. */
  function ChunkIds(videoId: string, n: nat): seq<string>
  {
    seq(n, i requires 0 <= i < n => ChunkId(videoId, i))
  }

  /** The chunk index can be read back from the id. */
  lemma ChunkIdIndex(videoId: string, i: nat)
    ensures |ChunkId(videoId, i)| > |videoId| + 6
    ensures ParseDecimal(ChunkId(videoId, i)[|videoId| + 6..]) == i
  {
    assert ChunkId(videoId, i)[|videoId| + 6..] == NatToString(i);
    ParseNatToString(i);
  }

  /** One id per chunk, all distinct. */
  lemma ChunkIdsDistinct(videoId: string, n: nat)
    ensures |ChunkIds(videoId, n)| == n
    ensures forall i, j | 0 <= i < j < n :: ChunkIds(videoId, n)[i] != ChunkIds(videoId, n)[j]
  {
    forall i, j | 0 <= i < j < n ensures ChunkIds(videoId, n)[i] != ChunkIds(videoId, n)[j] {
      if ChunkId(videoId, i) == ChunkId(videoId, j) {
        ChunkIdIndex(videoId, i);
        ChunkIdIndex(videoId, j);
      }
    }
  }

  // ---- the whole script ----

  /** What the script does from the first transcription on, given the two transcriptions and the two OCR passes. */
  function Pipeline(info: VideoInfo, transcribe: Option<string> -> seq<Segment>,
                    recognise: real -> OcrOutcome, recogniseAgain: real -> OcrOutcome,
                    order: set<string> -> seq<string>): Outcome
  {
    var first := transcribe(None);
    if first == [] then Exited(1)
    else
      var prompt := OcrPrompt(Readings(GroupMetas(info, Groups(first)), recognise), order);
      var gs := Groups(transcribe(Some(prompt)));
      Stored(GroupTexts(gs), Filled(GroupMetas(info, gs), recogniseAgain), ChunkIds(info.videoId, |GroupTexts(gs)|))
  }

  /** The script from the first transcription to the lists handed to `collection.add`. */
  method ProcessVideo(info: VideoInfo, transcribe: Option<string> -> seq<Segment>,
                      recognise: real -> OcrOutcome, recogniseAgain: real -> OcrOutcome,
                      order: set<string> -> seq<string>) returns (out: Outcome)
    ensures out == Pipeline(info, transcribe, recognise, recogniseAgain, order)
  {
    var segments := transcribe(None);
    if segments == [] {
      return Exited(1);
    }
    var texts, metadatas, readings := ChunkPass(info, segments, recognise);
    var prompt := Truncate(Strip(Join(" ", order(set x | x in readings))), PromptLimit);
    segments := transcribe(Some(prompt));
    texts, metadatas, readings := ChunkPass(info, segments, recogniseAgain);
    var ids := seq(|texts|, i requires 0 <= i < |texts| => ChunkId(info.videoId, i));
    out := Stored(texts, metadatas[..], ids);
  }

  /** One chunking pass followed by its OCR pass over a fresh array of records. */
  method ChunkPass(info: VideoInfo, segments: seq<Segment>, recognise: real -> OcrOutcome)
    returns (texts: seq<string>, metadatas: array<ChunkMeta>, readings: seq<string>)
    ensures fresh(metadatas)
    ensures texts == GroupTexts(Groups(segments))
    ensures metadatas[..] == Filled(GroupMetas(info, Groups(segments)), recognise)
    ensures readings == Readings(GroupMetas(info, Groups(segments)), recognise)
  {
    var metas;
    texts, metas := ChunkSegments(info, segments);
    metadatas := new ChunkMeta[|metas|](i requires 0 <= i < |metas| => metas[i]);
    assert metadatas[..] == metas;
    readings := FillOcr(metadatas, recognise);
  }

  /**
   * `out` stores the chunks of `segs`: their texts in order, their records with the `"ocr"`
   * entry added, and between them every non-blank segment text.
   */
  predicate ChunksOf(out: Outcome, info: VideoInfo, segs: seq<Segment>)
    requires out.Stored?
  {
    var metas := GroupMetas(info, Groups(segs));
    && out.documents == GroupTexts(Groups(segs))
    && |out.metadatas| == |metas|
    && (forall i | 0 <= i < |metas| :: out.metadatas[i].(ocr := None) == metas[i])
    && Join(" ", out.documents) == Join(" ", TextsOf(Pieces(segs)))
  }

  /** The script ends with status 1 exactly when the first transcription has no segment. */
  lemma PipelineExits(info: VideoInfo, transcribe: Option<string> -> seq<Segment>,
                      recognise: real -> OcrOutcome, recogniseAgain: real -> OcrOutcome,
                      order: set<string> -> seq<string>)
    ensures Pipeline(info, transcribe, recognise, recogniseAgain, order).Exited? <==> transcribe(None) == []
    ensures Pipeline(info, transcribe, recognise, recogniseAgain, order).Exited? ==>
            Pipeline(info, transcribe, recognise, recogniseAgain, order).status == 1
  {
  }

  /**
   * What is stored: the chunks of a second transcription whose prompt has at most 200
   * characters, one metadata record and one id per chunk, every record with an `"ocr"`
   * entry, the ids distinct, and no transcribed text lost.
   */
  lemma PipelineStores(info: VideoInfo, transcribe: Option<string> -> seq<Segment>,
                       recognise: real -> OcrOutcome, recogniseAgain: real -> OcrOutcome,
                       order: set<string> -> seq<string>)
    requires transcribe(None) != []
    ensures var out := Pipeline(info, transcribe, recognise, recogniseAgain, order);
            && out.Stored?
            && |out.documents| == |out.metadatas| == |out.ids|
            && (exists prompt :: |prompt| <= PromptLimit && ChunksOf(out, info, transcribe(Some(prompt))))
            && (forall i | 0 <= i < |out.documents| ::
                  out.documents[i] != "" && IsStripped(out.documents[i]) && out.metadatas[i].ocr.Some?)
            && (forall i, j | 0 <= i < j < |out.ids| :: out.ids[i] != out.ids[j])
  {
    var first := transcribe(None);
    var prompt := OcrPrompt(Readings(GroupMetas(info, Groups(first)), recognise), order);
    var segs := transcribe(Some(prompt));
    var gs := Groups(segs);
    ChunksDescribeGroups(info, segs);
    ChunksPreserveText(segs);
    FilledRecords(GroupMetas(info, gs), recogniseAgain);
    ChunkIdsDistinct(info.videoId, |GroupTexts(gs)|);
    assert ChunksOf(Pipeline(info, transcribe, recognise, recogniseAgain, order), info, segs);
  }
}
