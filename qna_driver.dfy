/**
 * The `main` loops of the question-and-answer scripts. Each iteration asks the LLM about one
 * piece of transcript (a `split_voice` chunk, or one stored slide), parses the answer and
 * calls `save_qna` with the iteration's index as `chunk_index`; an exception inside the
 * iteration is caught, reported, and the loop goes on with the next piece.
 *
 * The LLM (`make_prompt` and `call_ollama`) is `ask`, from the iteration's index to its
 * response (`None` when the call raises); `json.loads` is `loads`; the regex search of
 * `extract_json_array` is `search`; the clock is `stamp` and `createdAt`, one value per call.
 */
module QnaDriver {
  import opened Wrappers
  import opened Text
  import opened QnaStore
  import opened VoiceSplit

  /** How much of a response the error report shows (`response[:5000]`). */
  const EchoLimit: nat := 5000

  /** What is reported or saved when there is no response. */
  const Unavailable: string := "(取得不可)"

  /** The result of `json.loads` on a response: the array's items, or a `JSONDecodeError`. */
  datatype Decoded = Parsed(items: seq<Item>) | DecodeError

  /** How a response is parsed: `json.loads` alone, or falling back to `extract_json_array`. */
  datatype Parser = Direct | WithFallback(search: string -> Option<string>)

  /** What `main` passes to every call of `save_qna`, and the clock each call reads. */
  datatype Context = Context(videoId: string, course: string, section: string,
                             stamp: nat -> string, createdAt: nat -> string)

  /**
   * One run of a `main` loop: the pieces it iterates over, the oracles it consults, and what
   * the script fixes (its parser, its model column and its priority rule).
   */
  datatype Run = Run(ctx: Context, voices: seq<string>, ask: nat -> Option<string>,
                     loads: string -> Decoded, parser: Parser, model: Option<string>,
                     parseFloat: string -> Option<real>, rule: PriorityRule)

  /** One error report of the loop: the printed number `idx + 1` and the response shown. */
  datatype Diagnostic = Diagnostic(number: nat, echo: string)

  // ---- parsing a response ----

  /** `extract_json_array`: the first `[ {...} ]` match, parsed; `None` when there is none or it does not parse. */
  function ExtractJsonArray(text: string, search: string -> Option<string>, loads: string -> Decoded): (r: Option<seq<Item>>)
    ensures r.None? <==> search(text).None? || loads(search(text).value).DecodeError?
    ensures r.Some? ==> r.value == loads(search(text).value).items
  {
    var found := search(text);
    if found.None? then None
    else match loads(found.value)
      case Parsed(items) => Some(items)
      case DecodeError => None
  }

  /** The items of a response, `None` where the iteration raises before `save_qna`. */
  function Parse(run: Run, response: string): Option<seq<Item>>
  {
    match run.loads(response)
    case Parsed(items) => Some(items)
    case DecodeError =>
      match run.parser
      case Direct => None
      case WithFallback(search) =>
        var extracted := ExtractJsonArray(response, search, run.loads);
        if extracted.None? || extracted.value == [] then None else extracted
  }

  /**
   * The fallback is tried only on a `JSONDecodeError`, and its `None` or empty result counts
   * as a failure; a direct parse is taken as it is, even when it is empty.
   */
  lemma ParseFallback(run: Run, response: string)
    requires run.parser.WithFallback?
    ensures run.loads(response).Parsed? ==> Parse(run, response) == Some(run.loads(response).items)
    ensures run.loads(response).DecodeError? ==>
              (Parse(run, response).None? <==>
                 ExtractJsonArray(response, run.parser.search, run.loads).None? ||
                 ExtractJsonArray(response, run.parser.search, run.loads).value == [])
    ensures Parse(run, response).Some? && run.loads(response).DecodeError? ==> Parse(run, response).value != []
  {
  }

  /** Without the fallback a response that does not parse fails the iteration. */
  lemma ParseDirect(run: Run, response: string)
    requires run.parser.Direct?
    ensures Parse(run, response).Some? <==> run.loads(response).Parsed?
  {
  }

  // ---- the loop ----

  /** The `save_qna` call of iteration `k`. */
  function CallAt(run: Run, k: nat): Call
    requires k < |run.voices|
  {
    Call(run.ctx.videoId, run.ctx.course, run.ctx.section, run.voices[k], k,
         run.ctx.stamp(k), run.ctx.createdAt(k), run.model)
  }

  /** The try block of iteration `k` on the table `rows`: the committed table, or `None` when it raises. */
  function Attempt(rows: map<string, Row>, run: Run, k: nat): Option<map<string, Row>>
    requires k < |run.voices|
  {
    var response := run.ask(k);
    if response.None? then None
    else
      var items := Parse(run, response.value);
      if items.None? then None
      else Inserted(rows, CallAt(run, k), items.value, run.parseFloat, run.rule)
  }

  /** The table after the first `n` iterations: a failed iteration leaves it as it was. */
  function RowsAfter(rows: map<string, Row>, run: Run, n: nat): map<string, Row>
    requires n <= |run.voices|
  {
    if n == 0 then rows
    else
      var before := RowsAfter(rows, run, n - 1);
      var attempt := Attempt(before, run, n - 1);
      if attempt.Some? then attempt.value else before
  }

  /** Iteration `k` raised. */
  predicate Failed(rows: map<string, Row>, run: Run, k: nat)
    requires k < |run.voices|
  {
    Attempt(RowsAfter(rows, run, k), run, k).None?
  }

  /** Which of the first `n` iterations raised, in order. */
  function Status(rows: map<string, Row>, run: Run, n: nat): (failed: seq<bool>)
    requires n <= |run.voices|
  {
    seq(n, k requires 0 <= k < n => Failed(rows, run, k))
  }

  /** The response shown for a failed iteration: at most 5000 characters of its response, if it has one. */
  function Echo(response: Option<string>): (r: string)
    ensures response.None? ==> r == Unavailable
    ensures response.Some? ==> r <= response.value && |r| <= EchoLimit
  {
    if response.Some? then Truncate(response.value, EchoLimit) else Unavailable
  }

  /** The error reports of a loop whose iterations failed as `failed` says. */
  function Reports(failed: seq<bool>, ask: nat -> Option<string>): seq<Diagnostic>
  {
    if failed == [] then []
    else
      var n := |failed| - 1;
      Reports(failed[..n], ask) + (if failed[n] then [Diagnostic(n + 1, Echo(ask(n)))] else [])
  }

  /** `failures/{video_id}_{chunk_index:02d}.txt` (`save_failed_output`). */
  function FailurePath(videoId: string, k: nat): string
  {
    "failures/" + videoId + "_" + Pad2(k) + ".txt"
  }

  /** What `save_failed_output` writes: the response, or the placeholder when it is missing or empty. */
  function FailureContent(response: Option<string>): (content: string)
    ensures content != ""
    ensures response.Some? && response.value != "" ==> content == response.value
  {
    if response.Some? && response.value != "" then response.value else Unavailable
  }

  /** The failure files written by a loop whose iterations failed as `failed` says. */
  function FailureFiles(failed: seq<bool>, ask: nat -> Option<string>, videoId: string): map<string, string>
  {
    if failed == [] then map[]
    else
      var n := |failed| - 1;
      var files := FailureFiles(failed[..n], ask, videoId);
      if failed[n] then files[FailurePath(videoId, n) := FailureContent(ask(n))] else files
  }

  // ---- what the loop promises ----

  /** Rows committed by an iteration stay as they are through every later iteration. */
  lemma {:induction false} RowsGrow(rows: map<string, Row>, run: Run, k: nat, n: nat)
    requires k <= n <= |run.voices|
    ensures forall key | key in RowsAfter(rows, run, k) ::
              key in RowsAfter(rows, run, n) && RowsAfter(rows, run, n)[key] == RowsAfter(rows, run, k)[key]
    decreases n
  {
    if k < n {
      RowsGrow(rows, run, k, n - 1);
      var before := RowsAfter(rows, run, n - 1);
      var attempt := Attempt(before, run, n - 1);
      if attempt.Some? {
        var response := run.ask(n - 1);
        InsertedExtends(before, CallAt(run, n - 1), Parse(run, response.value).value, run.parseFloat, run.rule);
      }
    }
  }

  /** The row under `key` was added by iteration `k`, which succeeded, and carries its piece and index. */
  predicate AddedBy(rows: map<string, Row>, run: Run, n: nat, key: string, k: nat)
    requires n <= |run.voices|
  {
    && k < n
    && !Failed(rows, run, k)
    && key in RowsAfter(rows, run, n)
    && RowsAfter(rows, run, n)[key].videoId == run.ctx.videoId
    && RowsAfter(rows, run, n)[key].voiceChunk == run.voices[k]
    && RowsAfter(rows, run, n)[key].chunkIndex == k
  }

  /**
   * Every row the loop adds comes from one successful iteration and is stored with that
   * iteration's piece and with its index as `chunk_index`.
   */
  lemma {:induction false} NewRowsFromSuccess(rows: map<string, Row>, run: Run, n: nat, key: string)
    requires n <= |run.voices|
    requires key in RowsAfter(rows, run, n) && key !in rows
    ensures exists k :: AddedBy(rows, run, n, key, k)
    decreases n
  {
    var before := RowsAfter(rows, run, n - 1);
    var attempt := Attempt(before, run, n - 1);
    if key in before {
      NewRowsFromSuccess(rows, run, n - 1, key);
      var k :| AddedBy(rows, run, n - 1, key, k);
      RowsGrow(rows, run, n - 1, n);
      assert AddedBy(rows, run, n, key, k);
    } else {
      assert attempt.Some?;
      var response := run.ask(n - 1);
      InsertedExtends(before, CallAt(run, n - 1), Parse(run, response.value).value, run.parseFloat, run.rule);
      assert AddedBy(rows, run, n, key, n - 1);
    }
  }

  /** Iteration `k` failed and reported `d`. */
  predicate ReportedAt(failed: seq<bool>, ask: nat -> Option<string>, k: nat, d: Diagnostic)
  {
    k < |failed| && failed[k] && d == Diagnostic(k + 1, Echo(ask(k)))
  }

  lemma {:induction false} ReportHasFailure(failed: seq<bool>, ask: nat -> Option<string>, d: Diagnostic)
    requires d in Reports(failed, ask)
    ensures exists k: nat :: ReportedAt(failed, ask, k, d)
    decreases |failed|
  {
    var n := |failed| - 1;
    var init := failed[..n];
    if d in Reports(init, ask) {
      ReportHasFailure(init, ask, d);
      var k: nat :| ReportedAt(init, ask, k, d);
      assert failed[k] == init[k];
      assert ReportedAt(failed, ask, k, d);
    } else {
      assert ReportedAt(failed, ask, n, d);
    }
  }

  lemma {:induction false} FailureHasReport(failed: seq<bool>, ask: nat -> Option<string>, k: nat)
    requires k < |failed| && failed[k]
    ensures Diagnostic(k + 1, Echo(ask(k))) in Reports(failed, ask)
    decreases |failed|
  {
    var n := |failed| - 1;
    var init := failed[..n];
    if k < n {
      assert init[k] == failed[k];
      FailureHasReport(init, ask, k);
    } else {
      var reports := Reports(failed, ask);
      assert reports[|reports| - 1] == Diagnostic(k + 1, Echo(ask(k)));
    }
  }

  /**
   * The loop reports exactly its failed iterations, each with its printed number and with
   * (the head of) that iteration's own response, or the placeholder when the call raised.
   */
  lemma ReportsAreFailures(failed: seq<bool>, ask: nat -> Option<string>, d: Diagnostic)
    ensures d in Reports(failed, ask) <==> exists k: nat :: ReportedAt(failed, ask, k, d)
  {
    if d in Reports(failed, ask) {
      ReportHasFailure(failed, ask, d);
    }
    if exists k: nat :: ReportedAt(failed, ask, k, d) {
      var k: nat :| ReportedAt(failed, ask, k, d);
      FailureHasReport(failed, ask, k);
    }
  }

  /** Distinct iterations write distinct failure files. */
  lemma FailurePathInjective(videoId: string, i: nat, j: nat)
    requires FailurePath(videoId, i) == FailurePath(videoId, j)
    ensures i == j
  {
    var p := "failures/" + videoId + "_";
    assert FailurePath(videoId, i) == p + (Pad2(i) + ".txt");
    assert FailurePath(videoId, j) == p + (Pad2(j) + ".txt");
    PrefixCancel(p, Pad2(i) + ".txt", Pad2(j) + ".txt");
    SuffixCancel(Pad2(i), Pad2(j), ".txt");
    Pad2Injective(i, j);
  }

  /** Iteration `k` failed and its output is saved under `path`. */
  predicate SavedAt(failed: seq<bool>, videoId: string, k: nat, path: string)
  {
    k < |failed| && failed[k] && path == FailurePath(videoId, k)
  }

  lemma {:induction false} FileHasFailure(failed: seq<bool>, ask: nat -> Option<string>, videoId: string, path: string)
    requires path in FailureFiles(failed, ask, videoId)
    ensures exists k: nat :: SavedAt(failed, videoId, k, path)
    decreases |failed|
  {
    var n := |failed| - 1;
    var init := failed[..n];
    if path in FailureFiles(init, ask, videoId) {
      FileHasFailure(init, ask, videoId, path);
      var k: nat :| SavedAt(init, videoId, k, path);
      assert failed[k] == init[k];
      assert SavedAt(failed, videoId, k, path);
    } else {
      assert SavedAt(failed, videoId, n, path);
    }
  }

  lemma {:induction false} FailureHasFile(failed: seq<bool>, ask: nat -> Option<string>, videoId: string, k: nat)
    requires k < |failed| && failed[k]
    ensures var path := FailurePath(videoId, k);
            path in FailureFiles(failed, ask, videoId) && FailureFiles(failed, ask, videoId)[path] == FailureContent(ask(k))
    decreases |failed|
  {
    var n := |failed| - 1;
    var init := failed[..n];
    var files := FailureFiles(init, ask, videoId);
    var p, q := FailurePath(videoId, k), FailurePath(videoId, n);
    assert FailureFiles(failed, ask, videoId) == if failed[n] then files[q := FailureContent(ask(n))] else files;
    if k < n {
      assert init[k] == failed[k];
      FailureHasFile(init, ask, videoId, k);
      assert p in files && files[p] == FailureContent(ask(k));
      assert p != q by {
        if p == q {
          FailurePathInjective(videoId, k, n);
        }
      }
    }
  }

  /**
   * There is one failure file per failed iteration, named by its index, and it holds that
   * iteration's response; an earlier failure's file is never overwritten.
   */
  lemma FailureFilesOfFailures(failed: seq<bool>, ask: nat -> Option<string>, videoId: string, path: string)
    ensures path in FailureFiles(failed, ask, videoId) <==> exists k: nat :: SavedAt(failed, videoId, k, path)
    ensures forall k: nat | SavedAt(failed, videoId, k, path) ::
              FailureFiles(failed, ask, videoId)[path] == FailureContent(ask(k))
  {
    if path in FailureFiles(failed, ask, videoId) {
      FileHasFailure(failed, ask, videoId, path);
    }
    forall k: nat | SavedAt(failed, videoId, k, path)
      ensures path in FailureFiles(failed, ask, videoId) && FailureFiles(failed, ask, videoId)[path] == FailureContent(ask(k))
    {
      FailureHasFile(failed, ask, videoId, k);
    }
  }

  // ---- the report of the scripts as written ----

  /** The last response any iteration up to the `n`th obtained: what the variable `response` holds. */
  function LastResponse(ask: nat -> Option<string>, n: nat): (r: Option<string>)
    ensures r.Some? ==> exists j: nat | j < n :: ask(j) == r
    ensures r.None? ==> forall j: nat | j < n :: ask(j).None?
  {
    if n == 0 then None
    else if ask(n - 1).Some? then ask(n - 1)
    else LastResponse(ask, n - 1)
  }

  /** `response[:5000] if 'response' in locals() else "(取得不可)"` in iteration `k`. */
  function EchoAsWritten(ask: nat -> Option<string>, k: nat): string
  {
    Echo(LastResponse(ask, k + 1))
  }

  /** The error reports as the scripts print them. */
  function ReportsAsWritten(failed: seq<bool>, ask: nat -> Option<string>): seq<Diagnostic>
  {
    if failed == [] then []
    else
      var n := |failed| - 1;
      ReportsAsWritten(failed[..n], ask) + (if failed[n] then [Diagnostic(n + 1, EchoAsWritten(ask, n))] else [])
  }

  /**
   * Chunk 0's answer does not parse and chunk 1's call raises: as written, the report for
   * chunk 1 shows chunk 0's answer, while the corrected report shows the placeholder.
   */
  lemma StaleEcho()
    ensures var ctx := Context("v", "c", "s", _ => "t", _ => "t");
            var run := Run(ctx, ["a", "b"], k => if k == 0 then Some("x") else None,
                           _ => DecodeError, Direct, None, _ => None, Strict);
            && Status(map[], run, 2) == [true, true]
            && ReportsAsWritten(Status(map[], run, 2), run.ask) == [Diagnostic(1, "x"), Diagnostic(2, "x")]
            && Reports(Status(map[], run, 2), run.ask) == [Diagnostic(1, "x"), Diagnostic(2, Unavailable)]
  {
    var ctx := Context("v", "c", "s", _ => "t", _ => "t");
    var run := Run(ctx, ["a", "b"], k => if k == 0 then Some("x") else None,
                   _ => DecodeError, Direct, None, _ => None, Strict);
    assert Failed(map[], run, 0);
    assert RowsAfter(map[], run, 1) == map[];
    assert Failed(map[], run, 1);
    assert Status(map[], run, 2) == [true, true];
    assert [true, true][..1] == [true];
    assert [true][..0] == [];
    assert Echo(Some("x")) == "x";
  }

  /** As written the report can only differ when this iteration's call raised after an earlier one answered. */
  lemma EchoAsWrittenDiffers(ask: nat -> Option<string>, k: nat)
    ensures EchoAsWritten(ask, k) != Echo(ask(k)) ==>
              ask(k).None? && exists j: nat | j < k :: ask(j).Some?
  {
    if EchoAsWritten(ask, k) != Echo(ask(k)) {
      assert ask(k).None?;
      assert LastResponse(ask, k + 1) == LastResponse(ask, k);
    }
  }

  /** When every failed iteration did get a response, the printed reports are the intended ones. */
  lemma {:induction false} ReportsAsWrittenAgree(failed: seq<bool>, ask: nat -> Option<string>)
    requires forall k | 0 <= k < |failed| && failed[k] :: ask(k).Some?
    ensures ReportsAsWritten(failed, ask) == Reports(failed, ask)
    decreases |failed|
  {
    if failed != [] {
      var n := |failed| - 1;
      var init := failed[..n];
      forall k | 0 <= k < |init| && init[k] ensures ask(k).Some? {
        assert failed[k] == init[k];
      }
      ReportsAsWrittenAgree(init, ask);
      if failed[n] {
        assert LastResponse(ask, n + 1) == ask(n);
      }
    }
  }

  // ---- the main loops ----

  /**
   * The try block of one iteration: call the LLM, parse, `save_qna`; `failed` when any step
   * raises, with the table then as it was.
   */
  method TryPiece(table: QgTable, run: Run, idx: nat) returns (failed: bool, response: Option<string>)
    requires idx < |run.voices|
    modifies table
    ensures response == run.ask(idx)
    ensures failed == Attempt(old(table.rows), run, idx).None?
    ensures table.rows == if failed then old(table.rows) else Attempt(old(table.rows), run, idx).value
  {
    response := run.ask(idx);
    if response.None? {
      return true, response;
    }
    var items: seq<Item>;
    match run.loads(response.value) {
      case Parsed(xs) =>
        items := xs;
      case DecodeError =>
        match run.parser {
          case Direct =>
            return true, response;
          case WithFallback(search) =>
            var extracted := ExtractJsonArray(response.value, search, run.loads);
            if extracted.None? || extracted.value == [] {
              return true, response;
            }
            items := extracted.value;
        }
    }
    assert Parse(run, response.value) == Some(items);
    var reported := table.SaveQna(CallAt(run, idx), items, run.parseFloat, run.rule);
    failed := reported.None?;
  }

  /**
   * The loop shared by the scripts: every iteration is tried, and a failure is reported and
   * passed over. `last` is the script's `response` variable, which only a call that returns
   * assigns, so the report shows what it holds (`ReportsAsWritten`).
   */
  method Iterate(table: QgTable, run: Run) returns (log: seq<Diagnostic>, files: map<string, string>)
    modifies table
    ensures table.rows == RowsAfter(old(table.rows), run, |run.voices|)
    ensures log == ReportsAsWritten(Status(old(table.rows), run, |run.voices|), run.ask)
    ensures files == FailureFiles(Status(old(table.rows), run, |run.voices|), run.ask, run.ctx.videoId)
  {
    ghost var rows := table.rows;
    log, files := [], map[];
    var last: Option<string> := None;
    var idx := 0;
    while idx < |run.voices|
      invariant idx <= |run.voices|
      invariant table.rows == RowsAfter(rows, run, idx)
      invariant last == LastResponse(run.ask, idx)
      invariant log == ReportsAsWritten(Status(rows, run, idx), run.ask)
      invariant files == FailureFiles(Status(rows, run, idx), run.ask, run.ctx.videoId)
    {
      log, files, last := Step(table, run, rows, idx, log, files, last);
      idx := idx + 1;
    }
  }

  /** One turn of the loop: try the piece, and report and save its output when it fails. */
  method Step(table: QgTable, run: Run, ghost rows: map<string, Row>, idx: nat,
              log: seq<Diagnostic>, files: map<string, string>, last: Option<string>)
    returns (log': seq<Diagnostic>, files': map<string, string>, last': Option<string>)
    requires idx < |run.voices|
    requires table.rows == RowsAfter(rows, run, idx)
    requires last == LastResponse(run.ask, idx)
    requires log == ReportsAsWritten(Status(rows, run, idx), run.ask)
    requires files == FailureFiles(Status(rows, run, idx), run.ask, run.ctx.videoId)
    modifies table
    ensures table.rows == RowsAfter(rows, run, idx + 1)
    ensures last' == LastResponse(run.ask, idx + 1)
    ensures log' == ReportsAsWritten(Status(rows, run, idx + 1), run.ask)
    ensures files' == FailureFiles(Status(rows, run, idx + 1), run.ask, run.ctx.videoId)
  {
    var failed, response := TryPiece(table, run, idx);
    StepEffect(rows, run, idx);
    log', files', last' := log, files, last;
    if response.Some? {
      last' := response;
    }
    if failed {
      log' := log + [Diagnostic(idx + 1, Echo(last'))];
      files' := files[FailurePath(run.ctx.videoId, idx) := FailureContent(response)];
    }
  }

  /** What iteration `idx` adds to the reports and the saved files. */
  lemma StepEffect(rows: map<string, Row>, run: Run, idx: nat)
    requires idx < |run.voices|
    ensures var failed := Failed(rows, run, idx);
            var flags := Status(rows, run, idx);
            && ReportsAsWritten(Status(rows, run, idx + 1), run.ask) ==
               ReportsAsWritten(flags, run.ask)
               + (if failed then [Diagnostic(idx + 1, Echo(LastResponse(run.ask, idx + 1)))] else [])
            && FailureFiles(Status(rows, run, idx + 1), run.ask, run.ctx.videoId) ==
               (if failed then FailureFiles(flags, run.ask, run.ctx.videoId)[FailurePath(run.ctx.videoId, idx) := FailureContent(run.ask(idx))]
                else FailureFiles(flags, run.ask, run.ctx.videoId))
  {
    var flags := Status(rows, run, idx);
    StatusSnoc(rows, run, idx);
    ReportsAsWrittenSnoc(flags, Failed(rows, run, idx), run.ask);
    FailureFilesSnoc(flags, Failed(rows, run, idx), run.ask, run.ctx.videoId);
  }

  lemma StatusSnoc(rows: map<string, Row>, run: Run, n: nat)
    requires n < |run.voices|
    ensures Status(rows, run, n + 1) == Status(rows, run, n) + [Failed(rows, run, n)]
  {
  }

  lemma ReportsAsWrittenSnoc(failed: seq<bool>, b: bool, ask: nat -> Option<string>)
    ensures ReportsAsWritten(failed + [b], ask) ==
            ReportsAsWritten(failed, ask)
            + (if b then [Diagnostic(|failed| + 1, Echo(LastResponse(ask, |failed| + 1)))] else [])
  {
    var all := failed + [b];
    var n := |all| - 1;
    assert n == |failed| && all[n] == b;
    assert all[..n] == failed;
    var tail := if b then [Diagnostic(n + 1, EchoAsWritten(ask, n))] else [];
    assert ReportsAsWritten(all, ask) == ReportsAsWritten(all[..n], ask) + tail;
  }

  lemma FailureFilesSnoc(failed: seq<bool>, b: bool, ask: nat -> Option<string>, videoId: string)
    ensures FailureFiles(failed + [b], ask, videoId) ==
            if b then FailureFiles(failed, ask, videoId)[FailurePath(videoId, |failed|) := FailureContent(ask(|failed|))]
            else FailureFiles(failed, ask, videoId)
  {
    assert (failed + [b])[..|failed|] == failed;
  }

  /** The run of the chunk-based answer scripts on the documents of one video. */
  function ChunkRun(ctx: Context, documents: seq<string>, chunkSize: nat, ask: nat -> Option<string>,
                    loads: string -> Decoded, parseFloat: string -> Option<real>): Run
    requires chunkSize > 0
  {
    Run(ctx, SplitVoice(Join(" ", documents), chunkSize), ask, loads, Direct, None, parseFloat, Strict)
  }

  /**
   * `main` of the chunk-based answer scripts: the documents are joined with spaces, split into
   * pieces of `chunkSize` (3000 or 22000) characters, and each piece is answered under the
   * strict priority rule; an empty transcript returns before any call.
   */
  method AnswerChunks(table: QgTable, ctx: Context, documents: seq<string>, chunkSize: nat,
                      ask: nat -> Option<string>, loads: string -> Decoded, parseFloat: string -> Option<real>)
    returns (log: seq<Diagnostic>)
    requires chunkSize > 0
    modifies table
    ensures var run := ChunkRun(ctx, documents, chunkSize, ask, loads, parseFloat);
            && table.rows == RowsAfter(old(table.rows), run, |run.voices|)
            && log == ReportsAsWritten(Status(old(table.rows), run, |run.voices|), run.ask)
    ensures Join(" ", documents) == "" ==> table.rows == old(table.rows) && log == []
  {
    var voice := Join(" ", documents);
    if voice == "" {
      return [];
    }
    var run := ChunkRun(ctx, documents, chunkSize, ask, loads, parseFloat);
    var files;
    log, files := Iterate(table, run);
  }

  /**
   * Every row the chunk-based scripts add holds, as its transcript piece, the characters
   * `chunk_index * chunkSize` up to `(chunk_index + 1) * chunkSize` of the joined documents.
   */
  lemma ChunkRowsArePieces(rows: map<string, Row>, ctx: Context, documents: seq<string>, chunkSize: nat,
                           ask: nat -> Option<string>, loads: string -> Decoded,
                           parseFloat: string -> Option<real>, key: string)
    requires chunkSize > 0 && key !in rows
    requires var run := ChunkRun(ctx, documents, chunkSize, ask, loads, parseFloat);
             key in RowsAfter(rows, run, |run.voices|)
    ensures var run := ChunkRun(ctx, documents, chunkSize, ask, loads, parseFloat);
            var row := RowsAfter(rows, run, |run.voices|)[key];
            var voice := Join(" ", documents);
            && row.chunkIndex * chunkSize < |voice|
            && row.voiceChunk == voice[row.chunkIndex * chunkSize .. Min((row.chunkIndex + 1) * chunkSize, |voice|)]
  {
    var run := ChunkRun(ctx, documents, chunkSize, ask, loads, parseFloat);
    NewRowsFromSuccess(rows, run, |run.voices|, key);
    var k :| AddedBy(rows, run, |run.voices|, key, k);
    SplitVoicePiece(Join(" ", documents), chunkSize, k);
  }

  /** The model column the slide-based answer script writes. */
  const AnswerModel: string := "llama3.1"

  /**
   * `main` of the slide-based answer script: each stored slide is answered under the lenient
   * priority rule, with `extract_json_array` as the fallback parser, and the output of every
   * failed slide is saved; no slides means no calls.
   */
  method AnswerSlides(table: QgTable, ctx: Context, slides: seq<string>, ask: nat -> Option<string>,
                      loads: string -> Decoded, search: string -> Option<string>, parseFloat: string -> Option<real>)
    returns (files: map<string, string>)
    modifies table
    ensures var run := Run(ctx, slides, ask, loads, WithFallback(search), Some(AnswerModel), parseFloat, Lenient);
            && table.rows == RowsAfter(old(table.rows), run, |slides|)
            && files == FailureFiles(Status(old(table.rows), run, |slides|), ask, ctx.videoId)
  {
    if slides == [] {
      return map[];
    }
    var run := Run(ctx, slides, ask, loads, WithFallback(search), Some(AnswerModel), parseFloat, Lenient);
    var log;
    log, files := Iterate(table, run);
  }

  /**
   * `main` of the slide-based question script: each stored slide is sent once, its answer
   * parsed with `json.loads` alone and saved under the lenient priority rule, without a model
   * column; no slides means no calls.
   */
  method GenerateQuestions(table: QgTable, ctx: Context, slides: seq<string>, ask: nat -> Option<string>,
                           loads: string -> Decoded, parseFloat: string -> Option<real>)
    returns (log: seq<Diagnostic>)
    modifies table
    ensures var run := Run(ctx, slides, ask, loads, Direct, None, parseFloat, Lenient);
            && table.rows == RowsAfter(old(table.rows), run, |slides|)
            && log == ReportsAsWritten(Status(old(table.rows), run, |slides|), ask)
  {
    if slides == [] {
      return [];
    }
    var run := Run(ctx, slides, ask, loads, Direct, None, parseFloat, Lenient);
    var files;
    log, files := Iterate(table, run);
  }
}
