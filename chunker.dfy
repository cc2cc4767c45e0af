/**
 * The character-threshold chunker of the two earlier video pipelines: the transcript's
 * segments are stripped, blank ones are skipped, and the others are appended to a buffer,
 * each followed by one space; as soon as the buffer holds at least `ChunkSize` characters
 * it becomes one chunk (its text stripped, its start the first segment's start, its end
 * the last segment's end) and the buffer starts over; a non-blank residue is the last chunk.
 *
 * After each chunking pass an OCR pass gives every chunk's metadata an `"ocr"` entry, read
 * at the chunk's midpoint; the successful readings of the first pass are gathered into a
 * prompt of at most 200 characters for the second transcription, whose chunks are stored
 * under the ids `"{video_id}-chunk{i}"`.
 *
 * Whisper is an oracle from the optional initial prompt to the segment list; frame grabbing
 * and Tesseract are one oracle from a time to an outcome; the iteration order of a Python
 * `set` is an oracle from a set to a sequence.
 */
module TranscriptChunker {
  import opened Wrappers
  import opened Text
  import opened VideoDetails

  /** The buffer length at which a chunk is emitted. */
  const ChunkSize: nat := 200

  /** The length the OCR prompt is cut to. */
  const PromptLimit: nat := 200

  /** One transcript segment (a segment without a `"text"` key has text `""`). */
  datatype Segment = Segment(text: string, start: real, end: real)

  /** A non-blank segment after stripping: what the buffer is made of. */
  datatype Piece = Piece(text: string, start: real, end: real)

  /**
   * One metadata record of a chunk. `ocr` is `None` until an OCR pass has added the
   * `"ocr"` key to the record.
   */
  datatype ChunkMeta = ChunkMeta(video: string, videoId: string, course: string, section: string,
                                 start: real, end: real, createdAt: string, ocr: Option<string>)

  // ---- the pieces and the buffer ----

  predicate PieceOk(p: Piece) {
    p.text != "" && IsStripped(p.text)
  }

  predicate AllPiecesOk(g: seq<Piece>) {
    forall i | 0 <= i < |g| :: PieceOk(g[i])
  }

  /** What one segment contributes: its stripped text with its times, unless that text is empty. */
  function PieceOf(s: Segment): seq<Piece>
  {
    var t := Strip(s.text);
    if t == "" then [] else [Piece(t, s.start, s.end)]
  }

  /** The non-blank segments, stripped, in transcript order. */
  function Pieces(segs: seq<Segment>): seq<Piece>
  {
    if segs == [] then [] else Pieces(segs[..|segs| - 1]) + PieceOf(segs[|segs| - 1])
  }

  /** The buffer after appending the pieces of `g`, each followed by one space. */
  function Buffer(g: seq<Piece>): string
  {
    if g == [] then "" else Buffer(g[..|g| - 1]) + g[|g| - 1].text + " "
  }

  function TextsOf(g: seq<Piece>): seq<string>
  {
    seq(|g|, i requires 0 <= i < |g| => g[i].text)
  }

  /** The pieces of consecutive groups, one after the other. */
  function Flatten(gs: seq<seq<Piece>>): seq<Piece>
  {
    if gs == [] then [] else Flatten(gs[..|gs| - 1]) + gs[|gs| - 1]
  }

  // ---- the chunking rule ----

  /** The groups emitted so far, the group still in the buffer, and the buffer's text. */
  datatype ChunkState = ChunkState(closed: seq<seq<Piece>>, open: seq<Piece>, buffer: string)

  /** One non-blank segment: append it, and emit the buffer once it has reached `ChunkSize`. */
  function Feed(st: ChunkState, p: Piece): ChunkState
  {
    var open, buffer := st.open + [p], st.buffer + p.text + " ";
    if |buffer| >= ChunkSize then ChunkState(st.closed + [open], [], "") else ChunkState(st.closed, open, buffer)
  }

  /** One segment: blank ones are skipped, the others are fed to the buffer stripped. */
  function Step(st: ChunkState, s: Segment): ChunkState
  {
    var t := Strip(s.text);
    if t == "" then st else Feed(st, Piece(t, s.start, s.end))
  }

  /** The state after the segments, in order; every emitted group is non-empty. */
  function Scan(segs: seq<Segment>): (st: ChunkState)
    ensures forall i | 0 <= i < |st.closed| :: st.closed[i] != []
  {
    if segs == [] then ChunkState([], [], "") else Step(Scan(segs[..|segs| - 1]), segs[|segs| - 1])
  }

  /** The groups of one chunking pass: the emitted ones, then the residue if there is one. */
  function Groups(segs: seq<Segment>): (gs: seq<seq<Piece>>)
    ensures forall i | 0 <= i < |gs| :: gs[i] != []
  {
    Emitted(Scan(segs))
  }

  /** The emitted groups followed by the buffered one, if any. */
  function Emitted(st: ChunkState): (gs: seq<seq<Piece>>)
    requires forall i | 0 <= i < |st.closed| :: st.closed[i] != []
    ensures forall i | 0 <= i < |gs| :: gs[i] != []
  {
    st.closed + (if st.open == [] then [] else [st.open])
  }

  /** The stored text of a chunk: its pieces joined by single spaces. */
  function GroupText(g: seq<Piece>): string
  {
    Join(" ", TextsOf(g))
  }

  /** The metadata of a chunk, before any OCR pass. */
  function GroupMeta(info: VideoInfo, g: seq<Piece>): ChunkMeta
    requires g != []
  {
    ChunkMeta(info.videoName, info.videoId, info.course, info.section,
              g[0].start, g[|g| - 1].end, info.createdAt, None)
  }

  function GroupTexts(gs: seq<seq<Piece>>): seq<string>
  {
    if gs == [] then [] else GroupTexts(gs[..|gs| - 1]) + [GroupText(gs[|gs| - 1])]
  }

  function GroupMetas(info: VideoInfo, gs: seq<seq<Piece>>): seq<ChunkMeta>
    requires forall i | 0 <= i < |gs| :: gs[i] != []
  {
    if gs == [] then [] else GroupMetas(info, gs[..|gs| - 1]) + [GroupMeta(info, gs[|gs| - 1])]
  }

  // ---- the chunking loop ----

  /** The loop's variables hold state `st`: the lists of emitted chunks, the buffer and its times. */
  predicate Tracks(st: ChunkState, info: VideoInfo, texts: seq<string>, metadatas: seq<ChunkMeta>,
                   chunkText: string, chunkStart: Option<real>, chunkEnd: Option<real>)
  {
    && (forall i | 0 <= i < |st.closed| :: st.closed[i] != [])
    && AllPiecesOk(st.open)
    && texts == GroupTexts(st.closed)
    && metadatas == GroupMetas(info, st.closed)
    && chunkText == st.buffer && st.buffer == Buffer(st.open)
    && chunkStart == (if st.open == [] then None else Some(st.open[0].start))
    && (st.open != [] ==> chunkEnd == Some(st.open[|st.open| - 1].end))
  }

  /** One chunking pass (the loop and the residue flush after it). */
  method ChunkSegments(info: VideoInfo, segs: seq<Segment>) returns (texts: seq<string>, metadatas: seq<ChunkMeta>)
    ensures texts == GroupTexts(Groups(segs))
    ensures metadatas == GroupMetas(info, Groups(segs))
  {
    texts, metadatas := [], [];
    var chunkText := "";
    var chunkStart: Option<real> := None;
    var chunkEnd: Option<real> := None;
    var k := 0;
    while k < |segs|
      invariant 0 <= k <= |segs|
      invariant Tracks(Scan(segs[..k]), info, texts, metadatas, chunkText, chunkStart, chunkEnd)
    {
      ScanPrefix(segs, k);
      texts, metadatas, chunkText, chunkStart, chunkEnd :=
        AddSegment(info, segs[k], Scan(segs[..k]), texts, metadatas, chunkText, chunkStart, chunkEnd);
      k := k + 1;
    }
    assert segs[..k] == segs;
    ResidueTracked(Scan(segs), info, texts, metadatas, chunkText, chunkStart, chunkEnd);
    if !IsBlank(chunkText) {
      texts := texts + [Strip(chunkText)];
      metadatas := metadatas + [ChunkMeta(info.videoName, info.videoId, info.course, info.section,
                                          chunkStart.value, chunkEnd.value, info.createdAt, None)];
    }
  }

  /** The body of the chunking loop for one segment. */
  method AddSegment(info: VideoInfo, seg: Segment, ghost st: ChunkState,
                    texts: seq<string>, metadatas: seq<ChunkMeta>,
                    chunkText: string, chunkStart: Option<real>, chunkEnd: Option<real>)
    returns (texts': seq<string>, metadatas': seq<ChunkMeta>,
             chunkText': string, chunkStart': Option<real>, chunkEnd': Option<real>)
    requires Tracks(st, info, texts, metadatas, chunkText, chunkStart, chunkEnd)
    ensures Tracks(Step(st, seg), info, texts', metadatas', chunkText', chunkStart', chunkEnd')
  {
    texts', metadatas', chunkText', chunkStart', chunkEnd' := texts, metadatas, chunkText, chunkStart, chunkEnd;
    var text := Strip(seg.text);
    if text == "" {
      assert Step(st, seg) == st;
      return;
    }
    ghost var p := Piece(text, seg.start, seg.end);
    assert Step(st, seg) == Feed(st, p);
    FeedTracked(st, info, texts, metadatas, chunkText, chunkStart, chunkEnd, p);
    if chunkText' == "" {
      chunkStart' := Some(seg.start);
    }
    chunkText' := chunkText' + text + " ";
    chunkEnd' := Some(seg.end);
    if |chunkText'| >= ChunkSize {
      texts' := texts' + [Strip(chunkText')];
      metadatas' := metadatas' + [ChunkMeta(info.videoName, info.videoId, info.course, info.section,
                                            chunkStart'.value, chunkEnd'.value, info.createdAt, None)];
      chunkText' := "";
      chunkStart' := None;
    }
  }

  /** Feeding a piece moves the loop's variables as the loop body does. */
  lemma FeedTracked(st: ChunkState, info: VideoInfo, texts: seq<string>, metadatas: seq<ChunkMeta>,
                    chunkText: string, chunkStart: Option<real>, chunkEnd: Option<real>, p: Piece)
    requires Tracks(st, info, texts, metadatas, chunkText, chunkStart, chunkEnd) && PieceOk(p)
    ensures var buffer := chunkText + p.text + " ";
            var start := if chunkText == "" then Some(p.start) else chunkStart;
            if |buffer| >= ChunkSize then
              && start.Some?
              && Tracks(Feed(st, p), info, texts + [Strip(buffer)],
                        metadatas + [ChunkMeta(info.videoName, info.videoId, info.course, info.section,
                                               start.value, p.end, info.createdAt, None)],
                        "", None, Some(p.end))
            else Tracks(Feed(st, p), info, texts, metadatas, buffer, start, Some(p.end))
  {
    var open := st.open + [p];
    AppendPiece(st, p, chunkText, chunkStart);
    assert AllPiecesOk(open) by {
      assert forall i | 0 <= i < |st.open| :: open[i] == st.open[i];
    }
    var buffer := chunkText + p.text + " ";
    if |buffer| >= ChunkSize {
      FlushGroup(info, st.closed, open);
      assert Feed(st, p) == ChunkState(st.closed + [open], [], "");
      assert GroupMeta(info, open) == ChunkMeta(info.videoName, info.videoId, info.course, info.section,
                                                open[0].start, p.end, info.createdAt, None);
    } else {
      assert Feed(st, p) == ChunkState(st.closed, open, buffer);
    }
  }

  /** The flush after the loop completes the two lists. */
  lemma ResidueTracked(st: ChunkState, info: VideoInfo, texts: seq<string>, metadatas: seq<ChunkMeta>,
                       chunkText: string, chunkStart: Option<real>, chunkEnd: Option<real>)
    requires Tracks(st, info, texts, metadatas, chunkText, chunkStart, chunkEnd)
    ensures IsBlank(chunkText) ==> texts == GroupTexts(Emitted(st)) && metadatas == GroupMetas(info, Emitted(st))
    ensures !IsBlank(chunkText) ==>
      && chunkStart.Some? && chunkEnd.Some?
      && texts + [Strip(chunkText)] == GroupTexts(Emitted(st))
      && metadatas + [ChunkMeta(info.videoName, info.videoId, info.course, info.section,
                                chunkStart.value, chunkEnd.value, info.createdAt, None)]
         == GroupMetas(info, Emitted(st))
  {
    if st.open != [] {
      FlushGroup(info, st.closed, st.open);
      FlushText(st.open);
    } else {
      assert Emitted(st) == st.closed;
    }
  }

  /** Appending a piece to the buffer, and setting the start when the buffer was empty. */
  lemma AppendPiece(st: ChunkState, p: Piece, chunkText: string, chunkStart: Option<real>)
    requires chunkText == Buffer(st.open)
    requires chunkStart == (if st.open == [] then None else Some(st.open[0].start))
    ensures Buffer(st.open + [p]) == chunkText + p.text + " "
    ensures (if chunkText == "" then Some(p.start) else chunkStart) == Some((st.open + [p])[0].start)
  {
    var open := st.open + [p];
    assert open[..|open| - 1] == st.open;
  }

  /** Emitting a group appends its text and its metadata to the two lists. */
  lemma FlushGroup(info: VideoInfo, closed: seq<seq<Piece>>, g: seq<Piece>)
    requires g != [] && AllPiecesOk(g) && forall i | 0 <= i < |closed| :: closed[i] != []
    ensures forall i | 0 <= i < |closed + [g]| :: (closed + [g])[i] != []
    ensures GroupTexts(closed) + [Strip(Buffer(g))] == GroupTexts(closed + [g])
    ensures GroupMetas(info, closed) + [GroupMeta(info, g)] == GroupMetas(info, closed + [g])
  {
    forall i | 0 <= i < |closed + [g]| ensures (closed + [g])[i] != [] {
      if i < |closed| {
        assert (closed + [g])[i] == closed[i];
      }
    }
    FlushText(g);
    GroupTextsSnoc(closed, g);
    GroupMetasSnoc(info, closed, g);
  }

  /** A blank buffer holds no piece. */
  lemma BlankBuffer(g: seq<Piece>)
    requires AllPiecesOk(g) && IsBlank(Buffer(g))
    ensures g == []
  {
    if g != [] {
      FlushText(g);
    }
  }

  lemma ScanPrefix(segs: seq<Segment>, k: nat)
    requires k < |segs|
    ensures Scan(segs[..k + 1]) == Step(Scan(segs[..k]), segs[k])
  {
    assert segs[..k + 1][..k] == segs[..k];
  }

  lemma GroupTextsSnoc(gs: seq<seq<Piece>>, g: seq<Piece>)
    ensures GroupTexts(gs + [g]) == GroupTexts(gs) + [GroupText(g)]
  {
    assert (gs + [g])[..|gs|] == gs;
  }

  lemma GroupMetasSnoc(info: VideoInfo, gs: seq<seq<Piece>>, g: seq<Piece>)
    requires g != [] && forall i | 0 <= i < |gs| :: gs[i] != []
    ensures GroupMetas(info, gs + [g]) == GroupMetas(info, gs) + [GroupMeta(info, g)]
  {
    assert (gs + [g])[..|gs|] == gs;
  }

  /** The buffer of a group is its text followed by one space. */
  lemma {:induction false} BufferJoin(g: seq<Piece>)
    requires g != []
    ensures Buffer(g) == GroupText(g) + " "
  {
    var init, last := g[..|g| - 1], g[|g| - 1];
    if init != [] {
      BufferJoin(init);
      assert TextsOf(g)[..|init|] == TextsOf(init);
      assert TextsOf(g) == TextsOf(init) + [last.text];
      JoinSnoc(" ", TextsOf(init), last.text);
    } else {
      assert TextsOf(g) == [last.text];
    }
  }

  /** Stripping the buffer of a group of well-formed pieces gives the group's text, which is non-empty and stripped. */
  lemma FlushText(g: seq<Piece>)
    requires g != [] && AllPiecesOk(g)
    ensures Strip(Buffer(g)) == GroupText(g)
    ensures GroupText(g) != "" && IsStripped(GroupText(g))
  {
    BufferJoin(g);
    assert AllStrippedNonEmpty(TextsOf(g)) by {
      forall i | 0 <= i < |TextsOf(g)| ensures TextsOf(g)[i] != "" && IsStripped(TextsOf(g)[i]) {
        assert PieceOk(g[i]);
      }
    }
    JoinStripped(TextsOf(g));
    StripTrailingSpace(GroupText(g));
  }

  // ---- what the chunking guarantees ----

  /** Every proper prefix of `g` leaves the buffer below `ChunkSize`. */
  predicate ShortBefore(g: seq<Piece>, m: nat)
    requires m <= |g| + 1
  {
    forall k | 0 <= k < m :: |Buffer(g[..k])| < ChunkSize
  }

  /** An emitted group: non-empty, its buffer reached `ChunkSize`, and no proper prefix did. */
  predicate Closes(g: seq<Piece>) {
    g != [] && AllPiecesOk(g) && |Buffer(g)| >= ChunkSize && ShortBefore(g, |g|)
  }

  /** The chunking state after the pieces `ps`. */
  predicate ScanInv(st: ChunkState, ps: seq<Piece>) {
    && Flatten(st.closed) + st.open == ps
    && st.buffer == Buffer(st.open)
    && AllPiecesOk(st.open) && ShortBefore(st.open, |st.open| + 1)
    && forall i | 0 <= i < |st.closed| :: Closes(st.closed[i])
  }

  lemma FlattenSnoc(gs: seq<seq<Piece>>, g: seq<Piece>)
    ensures Flatten(gs + [g]) == Flatten(gs) + g
  {
    assert (gs + [g])[..|gs|] == gs;
  }

  lemma BufferSnoc(g: seq<Piece>, p: Piece)
    ensures Buffer(g + [p]) == Buffer(g) + p.text + " "
  {
    assert (g + [p])[..|g|] == g;
  }

  /** One segment keeps the chunking state invariant. */
  lemma StepInv(st: ChunkState, ps: seq<Piece>, seg: Segment)
    requires ScanInv(st, ps)
    ensures ScanInv(Step(st, seg), ps + PieceOf(seg))
  {
    var t := Strip(seg.text);
    var p := Piece(t, seg.start, seg.end);
    if t == "" {
      assert Step(st, seg) == st && PieceOf(seg) == [];
      assert ps + [] == ps;
    } else {
      assert Step(st, seg) == Feed(st, p) && PieceOf(seg) == [p];
      FeedInv(st, ps, p);
    }
    assert ScanInv(Step(st, seg), ps + PieceOf(seg));
  }

  lemma FeedInv(st: ChunkState, ps: seq<Piece>, p: Piece)
    requires ScanInv(st, ps) && PieceOk(p)
    ensures ScanInv(Feed(st, p), ps + [p])
  {
    var open := st.open + [p];
    GrowOpen(st.open, p);
    assert Flatten(st.closed) + open == ps + [p];
    if |Buffer(open)| >= ChunkSize {
      assert Feed(st, p) == ChunkState(st.closed + [open], [], "");
      FlattenSnoc(st.closed, open);
      assert Closes(open);
      ClosedSnoc(st.closed, open);
      assert Flatten(st.closed + [open]) + [] == ps + [p];
    } else {
      assert Feed(st, p) == ChunkState(st.closed, open, st.buffer + p.text + " ");
      assert open[..|open|] == open;
    }
  }

  /** Appending a piece to a short buffer keeps every proper prefix short. */
  lemma GrowOpen(g: seq<Piece>, p: Piece)
    requires AllPiecesOk(g) && ShortBefore(g, |g| + 1) && PieceOk(p)
    ensures AllPiecesOk(g + [p]) && ShortBefore(g + [p], |g| + 1)
    ensures Buffer(g + [p]) == Buffer(g) + p.text + " "
  {
    BufferSnoc(g, p);
    forall k | 0 <= k < |g| + 1 ensures |Buffer((g + [p])[..k])| < ChunkSize {
      assert (g + [p])[..k] == g[..k];
      assert |Buffer(g[..k])| < ChunkSize;
    }
  }

  lemma ClosedSnoc(closed: seq<seq<Piece>>, g: seq<Piece>)
    requires Closes(g) && forall i | 0 <= i < |closed| :: Closes(closed[i])
    ensures forall i | 0 <= i < |closed + [g]| :: Closes((closed + [g])[i])
  {
    forall i | 0 <= i < |closed + [g]| ensures Closes((closed + [g])[i]) {
      if i < |closed| {
        assert (closed + [g])[i] == closed[i];
      }
    }
  }

  lemma {:induction false} ScanInvariant(segs: seq<Segment>)
    ensures ScanInv(Scan(segs), Pieces(segs))
  {
    if segs != [] {
      ScanInvariant(segs[..|segs| - 1]);
      StepInv(Scan(segs[..|segs| - 1]), Pieces(segs[..|segs| - 1]), segs[|segs| - 1]);
    }
  }

  /** The groups of a state that satisfies the invariant. */
  lemma EmittedInv(st: ChunkState, ps: seq<Piece>)
    requires ScanInv(st, ps)
    ensures Flatten(Emitted(st)) == ps
    ensures forall i | 0 <= i < |Emitted(st)| :: AllPiecesOk(Emitted(st)[i])
    ensures forall i | 0 <= i < |Emitted(st)| :: ShortBefore(Emitted(st)[i], |Emitted(st)[i]|)
    ensures forall i | 0 <= i < |Emitted(st)| - 1 :: |Buffer(Emitted(st)[i])| >= ChunkSize
  {
    var gs := Emitted(st);
    if st.open == [] {
      assert gs == st.closed;
      assert Flatten(st.closed) + [] == Flatten(st.closed);
    } else {
      assert gs == st.closed + [st.open];
      FlattenSnoc(st.closed, st.open);
      forall i | 0 <= i < |gs|
        ensures AllPiecesOk(gs[i]) && ShortBefore(gs[i], |gs[i]|)
        ensures i < |gs| - 1 ==> |Buffer(gs[i])| >= ChunkSize
      {
        if i < |st.closed| {
          assert gs[i] == st.closed[i];
          assert Closes(st.closed[i]);
        } else {
          assert gs[i] == st.open;
        }
      }
    }
  }

  /**
   * The chunks are a contiguous grouping of the non-blank stripped segments, in order: nothing
   * is lost, repeated or reordered. Each group was emitted as soon as its buffer reached
   * `ChunkSize`: no proper prefix of a group reaches it, and every group but the last does.
   */
  lemma GroupsPartition(segs: seq<Segment>)
    ensures Flatten(Groups(segs)) == Pieces(segs)
    ensures forall i | 0 <= i < |Groups(segs)| :: AllPiecesOk(Groups(segs)[i])
    ensures forall i | 0 <= i < |Groups(segs)| :: ShortBefore(Groups(segs)[i], |Groups(segs)[i]|)
    ensures forall i | 0 <= i < |Groups(segs)| - 1 :: |Buffer(Groups(segs)[i])| >= ChunkSize
  {
    ScanInvariant(segs);
    EmittedInv(Scan(segs), Pieces(segs));
  }

  lemma {:induction false} GroupTextsIndex(gs: seq<seq<Piece>>)
    ensures |GroupTexts(gs)| == |gs|
    ensures forall i | 0 <= i < |gs| :: GroupTexts(gs)[i] == GroupText(gs[i])
  {
    if gs != [] {
      GroupTextsIndex(gs[..|gs| - 1]);
    }
  }

  lemma {:induction false} GroupMetasIndex(info: VideoInfo, gs: seq<seq<Piece>>)
    requires forall i | 0 <= i < |gs| :: gs[i] != []
    ensures |GroupMetas(info, gs)| == |gs|
    ensures forall i | 0 <= i < |gs| :: GroupMetas(info, gs)[i] == GroupMeta(info, gs[i])
  {
    if gs != [] {
      GroupMetasIndex(info, gs[..|gs| - 1]);
    }
  }

  /**
   * One chunk per group, in lockstep: the texts are non-empty and stripped, and each
   * metadata record carries the start of its group's first segment and the end of its last.
   */
  lemma ChunksDescribeGroups(info: VideoInfo, segs: seq<Segment>)
    ensures |GroupTexts(Groups(segs))| == |GroupMetas(info, Groups(segs))| == |Groups(segs)|
    ensures forall i | 0 <= i < |Groups(segs)| ::
              var g, text, meta := Groups(segs)[i], GroupTexts(Groups(segs))[i], GroupMetas(info, Groups(segs))[i];
              && text != "" && IsStripped(text) && text == GroupText(g)
              && meta.start == g[0].start && meta.end == g[|g| - 1].end
              && meta.video == info.videoName && meta.videoId == info.videoId
              && meta.course == info.course && meta.section == info.section
              && meta.createdAt == info.createdAt && meta.ocr == None
  {
    var gs := Groups(segs);
    GroupsPartition(segs);
    GroupTextsIndex(gs);
    GroupMetasIndex(info, gs);
    forall i | 0 <= i < |gs| ensures GroupText(gs[i]) != "" && IsStripped(GroupText(gs[i])) {
      FlushText(gs[i]);
    }
  }

  lemma TextsOfAppend(a: seq<Piece>, b: seq<Piece>)
    ensures TextsOf(a + b) == TextsOf(a) + TextsOf(b)
  {
  }

  /** Joining the group texts joins all the pieces of the groups. */
  lemma {:induction false} JoinGroups(gs: seq<seq<Piece>>)
    requires forall i | 0 <= i < |gs| :: gs[i] != []
    ensures Join(" ", GroupTexts(gs)) == Join(" ", TextsOf(Flatten(gs)))
  {
    if gs != [] {
      var init, g := gs[..|gs| - 1], gs[|gs| - 1];
      TextsOfAppend(Flatten(init), g);
      if init == [] {
        assert GroupTexts(gs) == [GroupText(g)];
        assert Flatten(init) == [];
        assert Flatten(gs) == g;
      } else {
        JoinGroups(init);
        assert Flatten(init) != [] by {
          assert init[|init| - 1] != [];
        }
        JoinSnoc(" ", GroupTexts(init), GroupText(g));
        JoinAppend(" ", TextsOf(Flatten(init)), TextsOf(g));
      }
    }
  }

  /**
   * No text is lost or reordered: joining the chunk texts with single spaces gives the
   * non-blank stripped segment texts joined with single spaces.
   */
  lemma ChunksPreserveText(segs: seq<Segment>)
    ensures Join(" ", GroupTexts(Groups(segs))) == Join(" ", TextsOf(Pieces(segs)))
  {
    GroupsPartition(segs);
    JoinGroups(Groups(segs));
  }
}
