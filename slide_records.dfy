/**
 * The segment loop of `process_and_store`: each pair of consecutive boundaries is one
 * slide segment; its OCR prompt is the keyword string of the latest sample taken at or
 * before the segment's midpoint; its transcript is stripped; segments whose transcript is
 * empty or whose transcription raised are dropped; the others become one document, one
 * metadata record and one id `"{video_id}-slide{i}"` each, in three parallel lists that
 * are handed to the vector store together unless saving is switched off or nothing is left.
 *
 * Segment extraction and Whisper are one oracle, `transcribe(start, end, prompt)`.
 */
module SlideRecords {
  import opened Wrappers
  import opened Text
  import opened SlideBoundaries
  import opened VideoDetails

  /** What the transcription of one segment gives: an exception, or a result whose `"text"` key may be missing. */
  datatype Transcription = Raised | Transcribed(text: Option<string>)

  /** One metadata record, as stored beside each document. */
  datatype SlideMeta = SlideMeta(video: string, videoId: string, course: string, section: string,
                                 start: real, end: real, createdAt: string, ocr: string)

  /** What is handed to `collection.add`: the three parallel lists. */
  datatype Batch = Batch(documents: seq<string>, metadatas: seq<SlideMeta>, ids: seq<string>)

  /** One kept segment: its index, document, metadata and id. */
  datatype SlideRecord = SlideRecord(seg: nat, doc: string, meta: SlideMeta, id: string)

  /** The document stored for a skipped speech recogniser. */
  const SkippedAsr: string := "[SKIPPED ASR]"

  /**
   * Everything one run of the segment loop depends on: the video's details, the kept OCR
   * samples, the boundary list, the transcription oracle and the `SKIP_ASR` switch.
   */
  datatype Run = Run(info: VideoInfo, ocrTexts: seq<OcrSample>, boundaries: seq<real>,
                     transcribe: (real, real, string) -> Transcription, skipAsr: bool)

  // ---- the OCR lookup ----

  /** Sample `i` was taken at or before the midpoint `mid`. */
  predicate NotAfter(ocrTexts: seq<OcrSample>, i: int, mid: real)
    requires 0 <= i < |ocrTexts|
  {
    ocrTexts[i].t as real <= mid
  }

  /** The keyword string of the latest sample taken at or before `mid`, or `""` when there is none. */
  function LatestOcr(ocrTexts: seq<OcrSample>, mid: real): string
  {
    if ocrTexts == [] then ""
    else if ocrTexts[|ocrTexts| - 1].t as real <= mid then ocrTexts[|ocrTexts| - 1].keywords
    else LatestOcr(ocrTexts[..|ocrTexts| - 1], mid)
  }

  /** The search over `reversed(ocr_texts)` that stops at the first sample not after `mid`. */
  method FindOcr(ocrTexts: seq<OcrSample>, mid: real) returns (ocr: string)
    ensures ocr == LatestOcr(ocrTexts, mid)
  {
    ocr := "";
    var j := |ocrTexts|;
    assert ocrTexts[..j] == ocrTexts;
    while j > 0
      invariant 0 <= j <= |ocrTexts|
      invariant LatestOcr(ocrTexts[..j], mid) == LatestOcr(ocrTexts, mid)
    {
      j := j - 1;
      assert ocrTexts[..j + 1][..j] == ocrTexts[..j];
      if ocrTexts[j].t as real <= mid {
        ocr := ocrTexts[j].keywords;
        return;
      }
    }
  }

  /**
   * The lookup finds the latest qualifying sample: either some sample `i` is not after `mid`,
   * the result is its keyword string and every later sample is after `mid`; or no sample
   * qualifies and the result is `""`.
   */
  lemma {:induction false} LatestOcrSpec(ocrTexts: seq<OcrSample>, mid: real)
    ensures (exists i | 0 <= i < |ocrTexts| :: NotAfter(ocrTexts, i, mid)) ==>
              exists i | 0 <= i < |ocrTexts| :: NotAfter(ocrTexts, i, mid)
                && LatestOcr(ocrTexts, mid) == ocrTexts[i].keywords
                && forall k | i < k < |ocrTexts| :: !NotAfter(ocrTexts, k, mid)
    ensures (forall i | 0 <= i < |ocrTexts| :: !NotAfter(ocrTexts, i, mid)) ==> LatestOcr(ocrTexts, mid) == ""
  {
    if ocrTexts != [] {
      var n := |ocrTexts|;
      var init := ocrTexts[..n - 1];
      LatestOcrSpec(init, mid);
      if NotAfter(ocrTexts, n - 1, mid) {
        assert LatestOcr(ocrTexts, mid) == ocrTexts[n - 1].keywords;
      } else {
        assert LatestOcr(ocrTexts, mid) == LatestOcr(init, mid);
        if exists i | 0 <= i < n :: NotAfter(ocrTexts, i, mid) {
          var i :| 0 <= i < n && NotAfter(ocrTexts, i, mid);
          assert NotAfter(init, i, mid);
          var i' :| 0 <= i' < n - 1 && NotAfter(init, i', mid)
            && LatestOcr(init, mid) == init[i'].keywords
            && forall k | i' < k < n - 1 :: !NotAfter(init, k, mid);
          assert NotAfter(ocrTexts, i', mid);
          forall k | i' < k < n ensures !NotAfter(ocrTexts, k, mid) {
            if k < n - 1 { assert !NotAfter(init, k, mid); }
          }
        } else {
          forall i | 0 <= i < n - 1 ensures !NotAfter(init, i, mid) {
            assert !NotAfter(ocrTexts, i, mid);
          }
        }
      }
    }
  }

  /** A midpoint before the first of the sorted samples gets the empty prompt. */
  lemma {:induction false} LatestOcrEmptyBeforeFirst(ocrTexts: seq<OcrSample>, mid: real)
    requires SortedSamples(ocrTexts)
    requires ocrTexts == [] || mid < ocrTexts[0].t as real
    ensures LatestOcr(ocrTexts, mid) == ""
  {
    if ocrTexts != [] {
      var init := ocrTexts[..|ocrTexts| - 1];
      assert SortedSamples(init);
      if |ocrTexts| > 1 {
        assert ocrTexts[0].t <= ocrTexts[|ocrTexts| - 1].t;
      }
      LatestOcrEmptyBeforeFirst(init, mid);
    }
  }

  // ---- one segment ----

  /**
   * The stripped transcript of a segment, or `None` when transcription raised (the error is
   * reported and the segment skipped). With the recogniser switched off the document is a marker.
   */
  function SegmentVoice(start: real, end: real, prompt: string,
                        transcribe: (real, real, string) -> Transcription, skipAsr: bool): Option<string>
  {
    if skipAsr then Some(SkippedAsr)
    else match transcribe(start, end, prompt)
      case Raised => None
      case Transcribed(text) => Some(Strip(match text case Some(s) => s case None => ""))
  }

  /** The id of segment `i`. */
  function SlideId(videoId: string, i: nat): string
  {
    videoId + "-slide" + NatToString(i)
  }

  /** The midpoint used for the OCR lookup of segment `i`. */
  function Midpoint(boundaries: seq<real>, i: nat): real
    requires i + 1 < |boundaries|
  {
    (boundaries[i] + boundaries[i + 1]) / 2.0
  }

  /** The OCR prompt of segment `i`. */
  function PromptOf(run: Run, i: nat): string
    requires i + 1 < |run.boundaries|
  {
    LatestOcr(run.ocrTexts, Midpoint(run.boundaries, i))
  }

  /** The voice of segment `i`, transcribed with its prompt. */
  function VoiceOf(run: Run, i: nat): Option<string>
    requires i + 1 < |run.boundaries|
  {
    SegmentVoice(run.boundaries[i], run.boundaries[i + 1], PromptOf(run, i), run.transcribe, run.skipAsr)
  }

  /** Segment `i` yields a record: its transcription did not raise and its stripped transcript is non-empty. */
  predicate Kept(run: Run, i: nat)
    requires i + 1 < |run.boundaries|
  {
    var v := VoiceOf(run, i);
    v.Some? && v.value != ""
  }

  /** The metadata record of segment `i`. */
  function MetaOf(run: Run, i: nat): SlideMeta
    requires i + 1 < |run.boundaries|
  {
    SlideMeta(run.info.videoName, run.info.videoId, run.info.course, run.info.section,
              run.boundaries[i], run.boundaries[i + 1], run.info.createdAt, PromptOf(run, i))
  }

  /** What segment `i` contributes: its record when it is kept, nothing otherwise. */
  function RecordOf(run: Run, i: nat): seq<SlideRecord>
    requires i + 1 < |run.boundaries|
  {
    if Kept(run, i) then [SlideRecord(i, VoiceOf(run, i).value, MetaOf(run, i), SlideId(run.info.videoId, i))]
    else []
  }

  /** The records of the first `n` segments, in segment order. */
  function Records(run: Run, n: nat): seq<SlideRecord>
    requires n < |run.boundaries| || n == 0
  {
    if n == 0 then [] else Records(run, n - 1) + RecordOf(run, n - 1)
  }

  /** The number of segments: one per consecutive pair of boundaries. */
  function SegmentCount(boundaries: seq<real>): nat
  {
    if |boundaries| == 0 then 0 else |boundaries| - 1
  }

  /** The records of all segments. */
  function AllRecords(run: Run): seq<SlideRecord>
  {
    Records(run, SegmentCount(run.boundaries))
  }

  /** `documents`, `metadatas` and `ids` are the three columns of `recs`. */
  predicate Columns(recs: seq<SlideRecord>, documents: seq<string>, metadatas: seq<SlideMeta>, ids: seq<string>) {
    |documents| == |recs| && |metadatas| == |recs| && |ids| == |recs|
    && forall j | 0 <= j < |recs| :: documents[j] == recs[j].doc && metadatas[j] == recs[j].meta && ids[j] == recs[j].id
  }

  /** What is written to the store: the batch, unless saving is off or there is no document. */
  function Written(documents: seq<string>, metadatas: seq<SlideMeta>, ids: seq<string>, skipSave: bool): Option<Batch>
  {
    if !skipSave && documents != [] then Some(Batch(documents, metadatas, ids)) else None
  }

  /** The record built for segment `i` from the looked-up prompt and the outcome of its transcription. */
  lemma RecordStep(run: Run, i: nat, failed: bool, r: SlideRecord)
    requires i + 1 < |run.boundaries|
    requires r == SlideRecord(i, r.doc, MetaOf(run, i), SlideId(run.info.videoId, i))
    requires (if failed then None else Some(r.doc)) == VoiceOf(run, i)
    ensures !failed && r.doc != "" ==> Records(run, i + 1) == Records(run, i) + [r]
    ensures failed || r.doc == "" ==> Records(run, i + 1) == Records(run, i)
  {
    assert Records(run, i + 1) == Records(run, i) + RecordOf(run, i);
    if failed || r.doc == "" {
      assert RecordOf(run, i) == [];
      assert Records(run, i) + [] == Records(run, i);
    }
  }

  lemma ColumnsSnoc(recs: seq<SlideRecord>, documents: seq<string>, metadatas: seq<SlideMeta>, ids: seq<string>,
                    r: SlideRecord)
    requires Columns(recs, documents, metadatas, ids)
    ensures Columns(recs + [r], documents + [r.doc], metadatas + [r.meta], ids + [r.id])
  {
  }

  /** The `try` block's transcription step: the stripped transcript, or `failed` when transcription raised. */
  method TranscribeSegment(start: real, end: real, prompt: string,
                           transcribe: (real, real, string) -> Transcription, skipAsr: bool)
    returns (voice: string, failed: bool)
    ensures (if failed then None else Some(voice)) == SegmentVoice(start, end, prompt, transcribe, skipAsr)
  {
    failed := false;
    if skipAsr {
      voice := SkippedAsr;
    } else {
      match transcribe(start, end, prompt) {
        case Raised =>
          failed := true;
          voice := "";
        case Transcribed(text) =>
          voice := Strip(match text case Some(s) => s case None => "");
      }
    }
  }

  /**
   * `process_and_store` after the boundaries are known: walks the segments, builds the three
   * parallel lists, and returns what it hands to the store.
   */
  method ProcessAndStore(info: VideoInfo, ocrTexts: seq<OcrSample>, boundaries: seq<real>,
                         transcribe: (real, real, string) -> Transcription, skipAsr: bool, skipSave: bool)
    returns (documents: seq<string>, metadatas: seq<SlideMeta>, ids: seq<string>, written: Option<Batch>)
    ensures Columns(AllRecords(Run(info, ocrTexts, boundaries, transcribe, skipAsr)), documents, metadatas, ids)
    ensures written == Written(documents, metadatas, ids, skipSave)
  {
    var run := Run(info, ocrTexts, boundaries, transcribe, skipAsr);
    documents, metadatas, ids := [], [], [];
    var n := SegmentCount(boundaries);
    var i := 0;
    while i < n
      invariant 0 <= i <= n
      invariant Columns(Records(run, i), documents, metadatas, ids)
    {
      documents, metadatas, ids := AddSlide(run, i, documents, metadatas, ids);
      i := i + 1;
    }
    if !skipSave && documents != [] {
      written := Some(Batch(documents, metadatas, ids));
    } else {
      written := None;
    }
  }

  /** The loop body for segment `i`: look up the prompt, transcribe, and keep a non-empty transcript. */
  method AddSlide(run: Run, i: nat, documents: seq<string>, metadatas: seq<SlideMeta>, ids: seq<string>)
    returns (documents': seq<string>, metadatas': seq<SlideMeta>, ids': seq<string>)
    requires i + 1 < |run.boundaries|
    requires Columns(Records(run, i), documents, metadatas, ids)
    ensures Columns(Records(run, i + 1), documents', metadatas', ids')
  {
    var info := run.info;
    var start := run.boundaries[i];
    var end := run.boundaries[i + 1];
    var ocr := FindOcr(run.ocrTexts, (start + end) / 2.0);
    assert ocr == PromptOf(run, i);
    var voice, failed := TranscribeSegment(start, end, ocr, run.transcribe, run.skipAsr);
    assert (if failed then None else Some(voice)) == VoiceOf(run, i);
    var meta := SlideMeta(info.videoName, info.videoId, info.course, info.section, start, end, info.createdAt, ocr);
    assert meta == MetaOf(run, i);
    var r := SlideRecord(i, voice, meta, SlideId(info.videoId, i));
    RecordStep(run, i, failed, r);
    documents', metadatas', ids' := documents, metadatas, ids;
    if !failed && voice != "" {
      ColumnsSnoc(Records(run, i), documents, metadatas, ids, r);
      documents' := documents + [voice];
      metadatas' := metadatas + [meta];
      ids' := ids + [SlideId(info.videoId, i)];
    }
  }

  // ---- properties of the records ----

  /** The record of segment `r.seg` carries its transcript, its two boundaries, its OCR prompt and its id. */
  predicate RecordFor(run: Run, r: SlideRecord) {
    r.seg + 1 < |run.boundaries|
    && VoiceOf(run, r.seg) == Some(r.doc) && r.doc != ""
    && r.meta.start == run.boundaries[r.seg] && r.meta.end == run.boundaries[r.seg + 1]
    && r.meta.ocr == LatestOcr(run.ocrTexts, Midpoint(run.boundaries, r.seg))
    && r.meta.videoId == run.info.videoId && r.meta.video == run.info.videoName
    && r.meta.course == run.info.course && r.meta.section == run.info.section
    && r.meta.createdAt == run.info.createdAt
    && r.id == SlideId(run.info.videoId, r.seg)
  }

  /** The segment indices of `recs` are strictly increasing and below `n`. */
  predicate SegmentsBelow(recs: seq<SlideRecord>, n: nat) {
    (forall j, k | 0 <= j < k < |recs| :: recs[j].seg < recs[k].seg)
    && forall j | 0 <= j < |recs| :: recs[j].seg < n
  }

  /** Segment `i` contributes one record, for itself, when it is kept, and none otherwise. */
  lemma RecordOfShape(run: Run, i: nat)
    requires i + 1 < |run.boundaries|
    ensures |RecordOf(run, i)| == (if Kept(run, i) then 1 else 0)
    ensures forall r | r in RecordOf(run, i) :: r.seg == i && RecordFor(run, r)
  {
  }

  /** The segment indices of the records of the first `n` segments are strictly increasing and below `n`; so there are at most `n` records. */
  lemma {:induction false} RecordsSegments(run: Run, n: nat)
    requires n < |run.boundaries| || n == 0
    ensures SegmentsBelow(Records(run, n), n)
    ensures |Records(run, n)| <= n
  {
    if n > 0 {
      RecordsSegments(run, n - 1);
      RecordOfShape(run, n - 1);
      var r0, extra, recs := Records(run, n - 1), RecordOf(run, n - 1), Records(run, n);
      assert recs == r0 + extra;
      forall j | 0 <= j < |recs| ensures recs[j].seg == if j < |r0| then r0[j].seg else n - 1 {
        if j < |r0| { assert recs[j] == r0[j]; } else { assert recs[j] == extra[j - |r0|] && recs[j] in extra; }
      }
    }
  }

  /** Each record of the first `n` segments describes its own segment. */
  lemma {:induction false} RecordsDescribe(run: Run, n: nat)
    requires n < |run.boundaries| || n == 0
    ensures forall r | r in Records(run, n) :: RecordFor(run, r)
  {
    if n > 0 {
      RecordsDescribe(run, n - 1);
      RecordOfShape(run, n - 1);
      assert Records(run, n) == Records(run, n - 1) + RecordOf(run, n - 1);
    }
  }

  /** The segment indices of `recs`, in order. */
  function Segs(recs: seq<SlideRecord>): seq<nat>
  {
    seq(|recs|, j requires 0 <= j < |recs| => recs[j].seg)
  }

  /** Which segments yield a record, as a test on segment indices. */
  function KeptAt(run: Run): nat -> bool
  {
    (i: nat) => i + 1 < |run.boundaries| && Kept(run, i)
  }

  /** The indices below `n` that pass `keep`, in increasing order. */
  function Selected(n: nat, keep: nat -> bool): seq<nat>
  {
    if n == 0 then [] else Selected(n - 1, keep) + (if keep(n - 1) then [n - 1] else [])
  }

  /** An index is selected exactly when it is below `n` and passes the test. */
  lemma {:induction false} SelectedMembership(n: nat, keep: nat -> bool, i: nat)
    ensures i in Selected(n, keep) <==> i < n && keep(i)
  {
    if n > 0 {
      SelectedMembership(n - 1, keep, i);
      var s0, tail := Selected(n - 1, keep), if keep(n - 1) then [n - 1] else [];
      assert i in s0 + tail <==> i in s0 || i in tail;
    }
  }

  /** The records of the first `n` segments are those of the kept segments, in segment order. */
  lemma {:induction false} RecordsOfKept(run: Run, n: nat)
    requires n < |run.boundaries| || n == 0
    ensures Segs(Records(run, n)) == Selected(n, KeptAt(run))
  {
    if n > 0 {
      RecordsOfKept(run, n - 1);
      var r0, extra := Records(run, n - 1), RecordOf(run, n - 1);
      assert Records(run, n) == r0 + extra;
      SegsAppend(r0, extra);
      RecordOfSegs(run, n - 1);
    }
  }

  lemma SegsAppend(a: seq<SlideRecord>, b: seq<SlideRecord>)
    ensures Segs(a + b) == Segs(a) + Segs(b)
  {
  }

  lemma RecordOfSegs(run: Run, i: nat)
    requires i + 1 < |run.boundaries|
    ensures Segs(RecordOf(run, i)) == if Kept(run, i) then [i] else []
  {
    RecordOfShape(run, i);
    var extra := RecordOf(run, i);
    if Kept(run, i) {
      assert extra[0] in extra;
    }
  }

  /** Segment `i` has a record exactly when it is below `n` and kept: nothing else is dropped. */
  lemma RecordsComplete(run: Run, n: nat, i: nat)
    requires n < |run.boundaries| || n == 0
    ensures i in Segs(Records(run, n)) <==> i < n && Kept(run, i)
  {
    RecordsOfKept(run, n);
    SelectedMembership(n, KeptAt(run), i);
  }

  /** The ids of the records of one call are pairwise distinct. */
  lemma IdsDistinct(run: Run)
    ensures forall j, k | 0 <= j < k < |AllRecords(run)| :: AllRecords(run)[j].id != AllRecords(run)[k].id
  {
    var recs := AllRecords(run);
    RecordsSegments(run, SegmentCount(run.boundaries));
    RecordsDescribe(run, SegmentCount(run.boundaries));
    forall j, k | 0 <= j < k < |recs| ensures recs[j].id != recs[k].id {
      assert recs[j] in recs && recs[k] in recs;
      SlideIdInjective(run.info.videoId, recs[j].seg, recs[k].seg);
    }
  }

  /** Different segment indices give different ids. */
  lemma SlideIdInjective(videoId: string, a: nat, b: nat)
    ensures SlideId(videoId, a) == SlideId(videoId, b) ==> a == b
  {
    if SlideId(videoId, a) == SlideId(videoId, b) {
      PrefixCancel(videoId + "-slide", NatToString(a), NatToString(b));
      NatToStringInjective(a, b);
    }
  }

  /** With the recogniser switched off, every segment is kept. */
  lemma {:induction false} SkippedAsrKeepsAll(run: Run, n: nat)
    requires run.skipAsr
    requires n < |run.boundaries| || n == 0
    ensures |Records(run, n)| == n
  {
    if n > 0 {
      SkippedAsrKeepsAll(run, n - 1);
      assert Kept(run, n - 1);
    }
  }

  /** Nothing is written when saving is off or no segment was kept; otherwise the whole batch is. */
  lemma WrittenIff(recs: seq<SlideRecord>, documents: seq<string>, metadatas: seq<SlideMeta>, ids: seq<string>,
                   skipSave: bool)
    requires Columns(recs, documents, metadatas, ids)
    ensures Written(documents, metadatas, ids, skipSave).None? <==> skipSave || recs == []
    ensures Written(documents, metadatas, ids, skipSave).Some? ==>
              Written(documents, metadatas, ids, skipSave).value == Batch(documents, metadatas, ids)
  {
  }
}
