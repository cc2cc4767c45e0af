# movie-qg: a verified model of the video pipeline and the Q&A scripts

movie-qg turns a recorded lecture video into text, and that text into quiz questions.

**Slide pipeline** (`back/scripts/process_video.py`).
- A frame is sampled every 5 seconds.
- Each sampled frame is read by OCR. Its nouns, minus stop words, become a keyword string.
- A slide boundary is placed wherever a frame's keywords differ enough from those of the frame kept before it.
- Each segment between two boundaries is transcribed, with the latest earlier OCR keywords as the prompt. A segment whose transcript is blank is dropped.
- The kept segments go to the vector store as documents, with their metadata and ids `{video_id}-slide{i}`.

**Chunk pipeline** (`back/older_scripts/process_video.py` and its copy `back/scripts_for_qwen2.5_70B_Instruct/process_video.py`).
- The whole video is transcribed.
- The stripped segment texts are packed into chunks. Each chunk is closed as soon as its buffer reaches `CHUNK_SIZE` (200) characters.
- The middle frame of each chunk is read by OCR.
- A prompt of at most 200 characters is built from those readings, and the video is transcribed again with it.
- The second transcription is chunked and read the same way, and stored with ids `{video_id}-chunk{i}`.
- A run that gets no segments from the first transcription exits with status 1.

**Q&A scripts**. These send each transcript piece to an LLM, parse the JSON array it returns and call `save_qna`, which inserts one `qg` row per item with a non-blank question and answer.
- `back/scripts/generate_question.py` and `back/scripts/generate_answer.py` work per stored slide.
- `back/scripts_for_llama3.1_70B_Instruct/generate_answer.py` and `back/older_scripts/generate_answer.py` work on `split_voice` pieces of 3000 and 22000 characters of the joined transcript.
- An iteration whose call, parse or save raises is reported. The slide-based answer script also saves the raw output under `failures/`. The loop then goes on.

The model is in Dafny. Code that computes values is written as functions. The loops are written as methods, with invariants, proved against those functions:
- the keyword node walk;
- the reversed OCR search;
- the segment loop;
- the chunking loop;
- the in-place OCR pass over the metadata array;
- `save_qna` on a `QgTable` class whose `rows` map is the SQLite table;
- the `main` loops.

Outside programs and services are oracle parameters: the OCR reader, the tokenizer, the embedding similarity test, the speech recogniser, the LLM, `json.loads` and the clock. Every result is proved for every choice of oracle.

Modules:
- `Wrappers`: `Option`.
- `Text`: `strip`, joins, slices and numerals.
- `KeywordFilter`: `extract_keywords_from_frame`.
- `SlideBoundaries`: `detect_slide_boundaries`.
- `SlideRecords`: `process_and_store`.
- `VideoDetails`: the video's fixed metadata.
- `TranscriptChunker`: the chunk loop.
- `ChunkPipeline`: the two-pass chunk scripts.
- `VoiceSplit`: `split_voice`.
- `QnaStore`: `save_qna`.
- `QnaDriver`: the `main` loops.

Some scripts are near copies of each other, and one Dafny member stands for both copies:
- The qwen2.5 chunk script (`back/scripts_for_qwen2.5_70B_Instruct/process_video.py`) follows the older chunk script's logic: 26 for 37, 33-36 for 43-47, 47-81 for 56-89, 84-96 for 92-107, 99 for 110, 109-143 for 120-153, 146-157 for 156-170, 166 for 178. Its rows below cite the older file. The copies differ in three ways:
  - The qwen2.5 copy runs ffmpeg without `timeout=5` and has no `subprocess.TimeoutExpired` handler (qwen2.5 lines 90 and 152, against older lines 98, 103-105, 162 and 166-168). In the model this copy is the case where the `recognise` and `recogniseAgain` oracles never answer `TimedOut`. An ffmpeg call that hangs is not modelled.
  - The qwen2.5 copy lacks the upload-path check of older lines 21-31. That check is before the modelled part in both scripts.
  - Comments and the final print differ.
- The two chunk-based answer scripts (`back/scripts_for_llama3.1_70B_Instruct/generate_answer.py` and `back/older_scripts/generate_answer.py`) differ in four ways:
  - the model name (line 12);
  - the piece size (lines 22 and 115 against 22 and 95);
  - the `make_prompt` text (llama3.1 lines 26-53 against older lines 26-33);
  - the hard-coded `video_id` and `section` (llama3.1 lines 106-108 against older lines 86-88).
  In the model the piece size is the `chunkSize` parameter, the prompt text is part of the `ask` oracle, and the ids are the `Context` parameter. Their strict priority conversion is cited from the llama3.1 file and holds for `back/older_scripts/generate_answer.py:71` too.

Where the code and the repository's own description differ, the model follows the code:
- When the first transcription yields no segment, the chunk scripts call `sys.exit(1)`, a failing exit status (`back/older_scripts/process_video.py:45-47`). They do not end quietly. `ChunkPipeline.PipelineExits` states this.
- The keywords of a frame are passed on and compared as one space-joined string (`back/scripts/process_video.py:78`), not as a set of tokens.

## Model

| member | source | states |
|---|---|---|
| Text.Strip | back/older_scripts/process_video.py:57 | `str.strip()`: the result has no whitespace at either end and is no longer than its input |
| Text.StripStart | back/older_scripts/process_video.py:57 | the left half of `strip()`: the input without its leading whitespace |
| Text.StripEnd | back/older_scripts/process_video.py:57 | the right half of `strip()`: the input without its trailing whitespace |
| Text.StripFrames | back/older_scripts/process_video.py:57 | strip removes only whitespace and only from the ends: the result sits in the input at some position with nothing but whitespace before and after it |
| Text.StripAllSpace | back/older_scripts/process_video.py:79 | a whitespace-only string strips to the empty string, so a blank residue buffer is not emitted |
| Text.StripTrailingSpace | back/older_scripts/process_video.py:62-66 | stripping a stripped non-empty text followed by the one space the buffer appends gives the text back |
| Text.StripOfStripped | back/scripts/generate_answer.py:97-98 | strip leaves an already stripped string as it is |
| Text.StripIdempotent | back/scripts/process_video.py:161 | stripping twice is stripping once |
| Text.JoinEmptyIff | back/scripts/process_video.py:78 | a space-join of non-empty parts is empty exactly when there are no parts, so the `if not keywords` test at line 97 means no keyword was found |
| Text.JoinStripped | back/scripts/process_video.py:78 | a space-join of non-empty stripped parts is non-empty and stripped |
| Text.JoinAppend | back/scripts_for_llama3.1_70B_Instruct/generate_answer.py:19 | joining two non-empty lists of parts in a row is joining each list, with one separator between the two results |
| Text.JoinAllSpace | back/older_scripts/process_video.py:110 | a space-join of whitespace-only parts is whitespace only |
| Text.Join | back/scripts/process_video.py:78 | `sep.join(parts)`: the parts in order, with one separator between neighbours |
| Text.Truncate | back/older_scripts/process_video.py:110 | `s[:n]` is a prefix of `s` of at most `n` characters: all of `s` when it fits, exactly `n` characters otherwise |
| Text.FirstField | back/scripts/process_video.py:71 | `split(",")[0]` is a comma-free prefix of the feature string, followed by a comma whenever it is shorter than the string |
| Text.Contains | back/scripts/process_video.py:74 | `needle in hay` for strings: the needle occurs as a contiguous part of the string |
| Text.NatToString | back/scripts/process_video.py:175 | `f"{i}"` is a non-empty string of decimal digits, without a leading zero unless `i` is 0, one digit exactly when `i < 10` and at most two exactly when `i < 100` |
| Text.ParseNatToString | back/scripts/process_video.py:175 | reading the decimal numeral of `i` back gives `i` |
| Text.NatToStringInjective | back/scripts/process_video.py:175 | different numbers have different numerals |
| Text.Pad2 | back/scripts/generate_answer.py:107 | `f"{i:02d}"` has at least two digits, and exactly two exactly when `i < 100` |
| Text.Pad2RoundTrip | back/scripts/generate_answer.py:107 | reading the padded numeral back gives the number |
| Text.Pad2Injective | back/scripts/generate_answer.py:107 | different numbers have different padded numerals |
| KeywordFilter.CollectKeywords | back/scripts/process_video.py:68-76 | the node walk returns the stripped surfaces of the noun nodes that are non-blank and not stop words, in node order |
| KeywordFilter.Keywords | back/scripts/process_video.py:68-76 | the keyword list of a node list: stripped surfaces of the noun nodes that are non-blank and not stop words, in node order |
| KeywordFilter.FrameKeywords | back/scripts/process_video.py:58-82 | the keyword string of one frame: "" when OCR raised or read only whitespace, otherwise the space-joined keywords of the stripped reading |
| KeywordFilter.ExtractKeywordsFromFrame | back/scripts/process_video.py:58-82 | the frame's keyword string: empty when OCR raises or reads only whitespace, otherwise the space-joined keywords of the tokenized reading |
| KeywordFilter.KeywordsWellFormed | back/scripts/process_video.py:72-75 | every kept keyword is non-empty, stripped and not a stop word |
| KeywordFilter.KeywordsMembership | back/scripts/process_video.py:70-76 | a word is a keyword exactly when some node is a noun whose stripped surface is that word and the word is not a stop word |
| KeywordFilter.KeywordsAppend | back/scripts/process_video.py:70-76 | the filter keeps order: the keywords of two node lists in a row are the keywords of the first followed by those of the second |
| KeywordFilter.FrameKeywordsEmptyIff | back/scripts/process_video.py:58-82 | the keyword string is empty exactly when OCR raised, the reading was blank, or no node passed the noun test |
| SlideBoundaries.TruncToInt | back/scripts/process_video.py:91 | `int(duration)` for a non-negative duration is the integer `n` with `n <= duration < n + 1` |
| SlideBoundaries.GridSpec | back/scripts/process_video.py:91 | `range(0, stop, 5)` lists exactly the multiples of 5 in `[0, stop)`, the `j`th being `5 * j` |
| SlideBoundaries.Grid | back/scripts/process_video.py:91 | `range(0, stop, 5)` as a list of sample times |
| SlideBoundaries.Samples | back/scripts/process_video.py:91-99 | the samples kept from the sampled times, in time order: one per time whose frame has keywords, none when OCR is skipped |
| SlideBoundaries.Detected | back/scripts/process_video.py:103-108 | the interior boundaries: the time of each kept sample that is dissimilar to the kept sample before it |
| SlideBoundaries.BoundaryList | back/scripts/process_video.py:89-110 | the returned list: `0.0`, the interior boundaries, then the duration |
| SlideBoundaries.DetectSlideBoundaries | back/scripts/process_video.py:86-111 | the loop returns `[0.0]`, the detected boundaries of the kept samples, then the duration; its embeddings list is the kept samples' keyword strings |
| SlideBoundaries.DetectStep | back/scripts/process_video.py:99-108 | one kept sample adds its embedding, and adds its time as a boundary exactly when at least two embeddings exist and it is dissimilar to the previous one |
| SlideBoundaries.SamplesFromFrames | back/scripts/process_video.py:91-99 | every kept sample was taken at one of the sampled times with OCR on, and holds that frame's non-empty keyword string |
| SlideBoundaries.SamplesSorted | back/scripts/process_video.py:91 | for increasing sample times, as the grid is, the kept samples are in strictly increasing time order |
| SlideBoundaries.SamplesComplete | back/scripts/process_video.py:94-99 | unless OCR is skipped, every grid time whose frame has keywords yields a sample |
| SlideBoundaries.NoSamples | back/scripts/process_video.py:92-98 | with OCR skipped, or no frame having keywords, nothing is sampled |
| SlideBoundaries.DetectedMembership | back/scripts/process_video.py:103-108 | a time is an interior boundary exactly when it is the time of a kept sample, not the first, that is dissimilar to the kept sample before it |
| SlideBoundaries.DetectedOrdered | back/scripts/process_video.py:103-108 | interior boundaries are strictly increasing, after the first sample's time and no later than the last sample's |
| SlideBoundaries.EmptyFrameNeverBoundary | back/scripts/process_video.py:97-98 | a frame without keywords never becomes a boundary |
| SlideBoundaries.SamplesInVideo | back/scripts/process_video.py:91 | every kept sample time is at least 0 and below the duration |
| SlideBoundaries.BoundaryListWellFormed | back/scripts/process_video.py:89-110 | for sorted samples inside the video, the list starts with 0.0, ends with the duration, is sorted, and its interior points lie strictly inside and strictly increase |
| SlideBoundaries.BoundariesWellFormed | back/scripts/process_video.py:86-111 | the list the function returns has that shape for every non-negative duration and every oracle |
| SlideBoundaries.NoKeywordsOneSlide | back/scripts/process_video.py:92-110 | with OCR skipped or no keywords anywhere, the whole video is one slide, `[0.0, duration]` |
| SlideRecords.FindOcr | back/scripts/process_video.py:148-152 | the reversed search returns the keyword string of the latest sample not after the midpoint, or "" |
| SlideRecords.LatestOcr | back/scripts/process_video.py:148-152 | the keyword string of the latest sample taken at or before the midpoint, or "" when there is none |
| SlideRecords.LatestOcrSpec | back/scripts/process_video.py:148-152 | when some sample is not after the midpoint, the result is the keywords of the last such sample; otherwise it is "" |
| SlideRecords.LatestOcrEmptyBeforeFirst | back/scripts/process_video.py:148-152 | for sorted samples, a midpoint before the first sample gets the empty prompt |
| SlideRecords.TranscribeSegment | back/scripts/process_video.py:154-161 | the try block's voice: the skip marker when ASR is off, the stripped `"text"` (or "") of the transcription, or a failure when transcription raises |
| SlideRecords.SegmentVoice | back/scripts/process_video.py:154-161 | a segment's voice: the skip marker when ASR is off, the stripped `"text"` ("" when missing) of the transcription, or a failure when it raised |
| SlideRecords.RecordOf | back/scripts/process_video.py:162-175 | what one segment contributes: its record (voice, metadata, id) when its voice is non-empty and did not fail, nothing otherwise |
| SlideRecords.Records | back/scripts/process_video.py:139-177 | the records of the first `n` segments, in segment order |
| SlideRecords.RecordStep | back/scripts/process_video.py:162-175 | a segment with a non-empty voice appends exactly its record; a failed or empty one leaves the records unchanged |
| SlideRecords.AddSlide | back/scripts/process_video.py:139-177 | one loop iteration keeps the three lists equal to the columns of the records of the segments seen so far |
| SlideRecords.ProcessAndStore | back/scripts/process_video.py:134-183 | the three lists are the columns of the records of all segments, and the batch written is `Written(...)` |
| SlideRecords.RecordOfShape | back/scripts/process_video.py:162-175 | a segment contributes one record, describing itself, exactly when it is kept, and none otherwise |
| SlideRecords.RecordsSegments | back/scripts/process_video.py:139 | record segment indices strictly increase and stay below the number of segments seen, so there are at most that many records |
| SlideRecords.RecordsDescribe | back/scripts/process_video.py:164-175 | each record holds its segment's voice, its two boundaries, its OCR prompt and the id `{video_id}-slide{i}` |
| SlideRecords.RecordsOfKept | back/scripts/process_video.py:139-177 | the records are those of the kept segments, in segment order |
| SlideRecords.RecordsComplete | back/scripts/process_video.py:162-163 | a segment has a record exactly when it is kept: only raising or blank segments are dropped |
| SlideRecords.IdsDistinct | back/scripts/process_video.py:175 | the ids of one run are pairwise distinct |
| SlideRecords.SlideIdInjective | back/scripts/process_video.py:175 | different segment indices give different ids |
| SlideRecords.SkippedAsrKeepsAll | back/scripts/process_video.py:155-156 | with ASR skipped every segment yields a record |
| SlideRecords.WrittenIff | back/scripts/process_video.py:179-183 | nothing is written exactly when saving is off or no segment was kept; otherwise the whole batch is written |
| SlideRecords.Written | back/scripts/process_video.py:179-183 | the batch handed to `collection.add`, or nothing when saving is off or there is no document |
| TranscriptChunker.Groups | back/older_scripts/process_video.py:56-89 | every emitted chunk group is non-empty |
| TranscriptChunker.Feed | back/older_scripts/process_video.py:60-77 | one non-blank piece: append it to the open group and close the group once its buffer reaches 200 characters |
| TranscriptChunker.Scan | back/older_scripts/process_video.py:56-77 | the chunking state after the segments in order: closed groups, the open group and its buffer |
| TranscriptChunker.AddSegment | back/older_scripts/process_video.py:57-77 | one loop iteration moves the script's five variables from the chunking state before a segment to the state after it |
| TranscriptChunker.FeedTracked | back/older_scripts/process_video.py:60-77 | appending a non-blank piece flushes exactly when the buffer reaches 200 characters, emitting the stripped buffer with its first start and last end |
| TranscriptChunker.ResidueTracked | back/older_scripts/process_video.py:79-89 | after the loop, a non-blank buffer adds exactly the last group's chunk and a blank buffer adds nothing |
| TranscriptChunker.ChunkSegments | back/older_scripts/process_video.py:49-89 | texts and metadatas are the chunk texts and records of the groups of the segments |
| TranscriptChunker.FlushGroup | back/older_scripts/process_video.py:65-75 | flushing a group appends its text and a record spanning its first start to its last end |
| TranscriptChunker.BlankBuffer | back/older_scripts/process_video.py:79 | a blank buffer holds no piece, since every buffered piece is non-blank |
| TranscriptChunker.BufferJoin | back/older_scripts/process_video.py:62 | the buffer of a group is its pieces' texts joined by spaces, plus one trailing space |
| TranscriptChunker.FlushText | back/older_scripts/process_video.py:66 | a flushed chunk text is the group's texts joined by spaces: non-empty and stripped |
| TranscriptChunker.StepInv | back/older_scripts/process_video.py:57-77 | one segment keeps the chunking invariant: closed groups plus the open one are the pieces read so far |
| TranscriptChunker.ScanInvariant | back/older_scripts/process_video.py:56-77 | after any prefix of segments the invariant holds: every closed group just reached 200 characters and the open buffer is below it |
| TranscriptChunker.GroupsPartition | back/older_scripts/process_video.py:56-89 | the groups partition the non-blank pieces in order; no proper prefix of a group reaches 200 characters; every group but the last does |
| TranscriptChunker.ChunksDescribeGroups | back/older_scripts/process_video.py:60-89 | one text and one record per group; the record spans the group's first start to its last end, with no OCR yet |
| TranscriptChunker.JoinGroups | back/older_scripts/process_video.py:66 | joining the chunk texts gives back the space-join of all the pieces |
| TranscriptChunker.ChunksPreserveText | back/older_scripts/process_video.py:56-89 | chunking loses no text: the chunk texts joined by spaces are the stripped non-blank segment texts joined by spaces |
| ChunkPipeline.FillOcr | back/older_scripts/process_video.py:92-107 | the in-place pass sets every record's `"ocr"` entry from the reading at its midpoint and returns the successful readings in order |
| ChunkPipeline.OcrEntry | back/older_scripts/process_video.py:100-107 | a record's `"ocr"` entry: the stripped reading, or "" after a timeout or another exception |
| ChunkPipeline.FilledRecords | back/older_scripts/process_video.py:92-107 | every record gets an `"ocr"` entry, a failed reading leaves "", and nothing else in the record changes |
| ChunkPipeline.ReadingsLength | back/older_scripts/process_video.py:102 | there are at most as many readings as records |
| ChunkPipeline.ReadingsAreEntries | back/older_scripts/process_video.py:100-102 | a string is in the prompt list exactly when some record's frame was read and gave that string |
| ChunkPipeline.ReadingsInRecords | back/older_scripts/process_video.py:100-102 | each reading in the prompt list is the `"ocr"` entry of a record whose frame was read successfully, and conversely |
| ChunkPipeline.OcrPrompt | back/older_scripts/process_video.py:110 | the prompt has at most 200 characters |
| ChunkPipeline.OcrPromptBlank | back/older_scripts/process_video.py:110 | when every reading is empty, or there is none, the prompt is empty |
| ChunkPipeline.ChunkIdIndex | back/older_scripts/process_video.py:178 | the chunk index can be read back from its id |
| ChunkPipeline.ChunkId | back/older_scripts/process_video.py:178 | `f"{video_id}-chunk{i}"` |
| ChunkPipeline.ChunkIdsDistinct | back/older_scripts/process_video.py:178 | one id per chunk, pairwise distinct |
| ChunkPipeline.ChunkPass | back/older_scripts/process_video.py:56-107 | one chunk pass and its OCR pass return the groups' texts, their filled records in a fresh array and the readings |
| ChunkPipeline.ProcessVideo | back/older_scripts/process_video.py:43-179 | the script from the first transcription to `collection.add` ends as the two-pass pipeline function says |
| ChunkPipeline.Pipeline | back/older_scripts/process_video.py:43-179 | the script's outcome: exit status 1 when the first transcription is empty, otherwise the chunks, filled records and ids of the second transcription, made with the prompt built from the first pass's OCR readings |
| ChunkPipeline.PipelineExits | back/older_scripts/process_video.py:43-47 | the script exits with status 1 exactly when the first transcription has no segment |
| ChunkPipeline.PipelineStores | back/older_scripts/process_video.py:110-179 | otherwise it stores the chunks of a transcription made with a prompt of at most 200 characters: parallel lists, non-empty stripped documents, an `"ocr"` entry in every record, distinct ids |
| VoiceSplit.SplitVoiceRoundTrip | back/scripts_for_llama3.1_70B_Instruct/generate_answer.py:22-23 | concatenating the pieces gives back the transcript |
| VoiceSplit.SplitVoice | back/scripts_for_llama3.1_70B_Instruct/generate_answer.py:22-23 | `split_voice`: consecutive pieces of `chunk_size` characters taken from the front, the last one possibly shorter |
| VoiceSplit.SplitVoiceSizes | back/scripts_for_llama3.1_70B_Instruct/generate_answer.py:22-23 | every piece is non-empty and at most `chunk_size` long; all but the last are exactly `chunk_size` long |
| VoiceSplit.SplitVoiceCount | back/scripts_for_llama3.1_70B_Instruct/generate_answer.py:22-23 | there are `ceil(len / chunk_size)` pieces, and none exactly for the empty transcript |
| VoiceSplit.SplitVoicePiece | back/scripts_for_llama3.1_70B_Instruct/generate_answer.py:22-23 | piece `k` is `voice[k * chunk_size:(k + 1) * chunk_size]` |
| QnaStore.TextField | back/scripts/generate_answer.py:97-98 | `item.get(key, "").strip()` is stripped when it does not raise, and "" for a missing key |
| QnaStore.Priority | back/scripts/generate_answer.py:100 | `float(item.get("priority", 0.0))` is 0.0 for a missing key and raises on null, arrays and objects |
| QnaStore.Qgid | back/scripts/generate_answer.py:107 | the row key: the call's timestamp followed by the two-digit padded chunk and item indexes |
| QnaStore.Outcome | back/scripts/generate_answer.py:97-111 | one item's fate: raises, skipped, or kept with its key and row |
| QnaStore.Decide | back/scripts/generate_answer.py:99-111 | the rest of the iteration once question and answer are read: raises under the strict rule when the priority did not convert, is skipped when either text is blank, and is kept otherwise, with a priority of 0.0 when a lenient conversion failed |
| QnaStore.Planned | back/scripts/generate_answer.py:96-111 | the rows one call inserts, in item order, or a failure when some item raises |
| QnaStore.Inserted | back/scripts/generate_answer.py:96-113 | the table after inserting the items one by one, or a failure when an item raises or a key is already taken |
| QnaStore.QgTable.SaveQna | back/scripts/generate_answer.py:73-115 | when some item raises, or a key is already taken, nothing is committed and nothing is reported; otherwise the table is the inserted table and `len(qna_list)` is reported |
| QnaStore.InsertItem | back/scripts/generate_answer.py:96-111 | one iteration of the item loop applies that item's outcome to the pending table |
| QnaStore.Store | back/scripts/generate_answer.py:99-111 | once question and answer are read, the rest of the iteration applies the skip-or-insert decision |
| QnaStore.InsertedFailed | back/scripts/generate_answer.py:96-113 | once a prefix of the items fails, the whole call fails |
| QnaStore.SkipsBlank | back/scripts/generate_answer.py:104-105 | an item that does not raise yields a row exactly when its stripped question and answer are both non-empty |
| QnaStore.KeptRow | back/scripts/generate_answer.py:96-111 | a kept item's row has the key `stamp + {chunk_index:02d}{i:02d}`, the item's stripped non-empty question and answer, the call's video, piece and chunk index, and the converted priority; under the lenient rule a failed conversion gives 0.0, under the strict rule the conversion succeeded |
| QnaStore.LenientRaises | back/scripts/generate_answer.py:99-102 | under the lenient rule an item raises exactly when its question or answer cannot be read; the priority never makes it raise |
| QnaStore.StrictRaises | back/scripts_for_llama3.1_70B_Instruct/generate_answer.py:91 | under the strict rule an unconvertible priority raises even for an item that would have been skipped |
| QnaStore.StrictAbortsWhereLenientSkips | back/scripts_for_llama3.1_70B_Instruct/generate_answer.py:91-93 | an item with only a null priority aborts the strict call, but is skipped by the lenient one |
| QnaStore.PlannedRaises | back/scripts/generate_answer.py:96-113 | a call raises exactly when one of its items raises |
| QnaStore.PlannedRows | back/scripts/generate_answer.py:96-111 | the inserted rows are one per kept item, in item order, and nothing else |
| QnaStore.QgidItemInjective | back/scripts/generate_answer.py:107 | within one call, different items have different keys |
| QnaStore.PlannedKeysDistinct | back/scripts/generate_answer.py:107 | the planned rows of one call have pairwise distinct keys |
| QnaStore.QgidInjective | back/scripts/generate_answer.py:107 | with both indexes below 100 the key has four index digits and determines both indexes |
| QnaStore.QgidCollision | back/scripts/generate_answer.py:107 | from index 100 on, keys of different chunks coincide: chunk 10 item 100 has the key of chunk 101 item 0 |
| QnaStore.InsertedIsPlanned | back/scripts/generate_answer.py:96-113 | the call succeeds exactly when no item raises and no planned key is already taken; the new table is then the old one plus the planned rows |
| QnaStore.InsertedExtends | back/scripts/generate_answer.py:108-113 | a successful call keeps every old row and adds only rows of this call's video, piece and chunk index |
| QnaDriver.ExtractJsonArray | back/scripts/generate_answer.py:44-51 | no result exactly when the regex finds no array or the match does not parse; otherwise the parsed match's items |
| QnaDriver.Parse | back/scripts/generate_answer.py:137-143 | the items of a response: what `json.loads` gives, else, with the fallback, a non-empty extracted array, else a failure |
| QnaDriver.Attempt | back/scripts/generate_answer.py:135-145 | one try block on a table: the committed table, or a failure when the call, the parse or `save_qna` raises |
| QnaDriver.RowsAfter | back/scripts/generate_answer.py:130-149 | the table after the first `n` iterations, a failed iteration leaving it as it was |
| QnaDriver.Reports | back/scripts_for_llama3.1_70B_Instruct/generate_answer.py:126-128 | the intended reports: one per failed iteration, numbered `idx + 1`, showing that iteration's own response |
| QnaDriver.FailurePath | back/scripts/generate_answer.py:67 | `failures/{video_id}_{idx:02d}.txt` |
| QnaDriver.FailureFiles | back/scripts/generate_answer.py:147-149 | the files `save_failed_output` leaves: one per failed iteration, holding its response or the placeholder |
| QnaDriver.ParseFallback | back/scripts/generate_answer.py:138-143 | a parsing response gives its items; a non-parsing one falls back to the extracted array, and an empty or missing array raises |
| QnaDriver.ParseDirect | back/scripts_for_llama3.1_70B_Instruct/generate_answer.py:124 | without the fallback an iteration gets items exactly when `json.loads` succeeds |
| QnaDriver.Echo | back/scripts/generate_answer.py:135-149 | a report shows the placeholder when the iteration's call raised, and otherwise a prefix of at most 5000 characters of its own response |
| QnaDriver.FailureContent | back/scripts/generate_answer.py:149 | the saved content is never empty; it is the response itself when that is non-empty |
| QnaDriver.RowsGrow | back/scripts/generate_answer.py:130-149 | a row committed by an iteration stays, unchanged, through every later iteration |
| QnaDriver.NewRowsFromSuccess | back/scripts/generate_answer.py:130-149 | every new row was added by an iteration that succeeded, and carries that iteration's piece and index |
| QnaDriver.ReportsAreFailures | back/scripts_for_llama3.1_70B_Instruct/generate_answer.py:119-128 | the intended reports: one for each failed iteration and nothing else, numbered `idx + 1`, showing that iteration's own response |
| QnaDriver.FailurePathInjective | back/scripts/generate_answer.py:67 | different iterations write different failure files |
| QnaDriver.FileHasFailure | back/scripts/generate_answer.py:147-149 | every failure file belongs to an iteration that failed |
| QnaDriver.FailureHasFile | back/scripts/generate_answer.py:147-149 | every failed iteration leaves its file, holding its own output |
| QnaDriver.FailureFilesOfFailures | back/scripts/generate_answer.py:64-69 | a file exists exactly for each failed iteration, at `failures/{video_id}_{idx:02d}.txt`, with that iteration's content |
| QnaDriver.LastResponse | back/scripts_for_llama3.1_70B_Instruct/generate_answer.py:123 | the variable `response` holds some earlier iteration's response, and is unset only when no call so far returned |
| QnaDriver.EchoAsWritten | back/scripts_for_llama3.1_70B_Instruct/generate_answer.py:128 | the response printed in iteration `k`: at most 5000 characters of the last response obtained so far, or the placeholder |
| QnaDriver.ReportsAsWritten | back/scripts_for_llama3.1_70B_Instruct/generate_answer.py:126-128 | the reports as printed: one per failed iteration, numbered `idx + 1`, showing `EchoAsWritten` |
| QnaDriver.StaleEcho | back/scripts_for_llama3.1_70B_Instruct/generate_answer.py:122-128 | as written, after chunk 0's answer fails to parse and chunk 1's call raises, both reports show chunk 0's answer |
| QnaDriver.EchoAsWrittenDiffers | back/scripts_for_llama3.1_70B_Instruct/generate_answer.py:126-128 | the printed response can be wrong only when this iteration's call raised after an earlier call returned |
| QnaDriver.ReportsAsWrittenAgree | back/scripts_for_llama3.1_70B_Instruct/generate_answer.py:122-128 | when every failed iteration did get a response, the printed reports are the intended ones |
| QnaDriver.TryPiece | back/scripts/generate_answer.py:135-145 | one try block: the response is the LLM's, the iteration fails exactly when the attempt raises, and only a successful attempt changes the table |
| QnaDriver.Step | back/scripts/generate_answer.py:130-149 | one loop turn keeps the table, the `response` variable, the printed reports and the failure files equal to those of the iterations so far |
| QnaDriver.StepEffect | back/scripts/generate_answer.py:147-149 | an iteration adds a printed report, showing the last response obtained, and a failure file, holding its own response, exactly when it fails |
| QnaDriver.Iterate | back/scripts/generate_answer.py:130-149 | the whole loop ends with the table after every iteration, the printed reports `ReportsAsWritten`, and one file per failure |
| QnaDriver.AnswerChunks | back/scripts_for_llama3.1_70B_Instruct/generate_answer.py:105-128 | the chunk-based script iterates over the `split_voice` pieces of the joined documents; its log is the reports as printed (`ReportsAsWritten`); an empty transcript changes nothing and reports nothing |
| QnaDriver.ChunkRowsArePieces | back/scripts_for_llama3.1_70B_Instruct/generate_answer.py:115-125 | every row these scripts add holds, as its piece, characters `chunk_index * size` to `(chunk_index + 1) * size` of the joined documents |
| QnaDriver.AnswerSlides | back/scripts/generate_answer.py:118-149 | the slide answer script runs the loop with the fallback parser, the lenient rule and the `llama3.1` model column, and saves one file per failed slide |
| QnaDriver.GenerateQuestions | back/scripts/generate_question.py:118-139 | the question script runs the loop with `json.loads` alone, the lenient rule and no model column; its log is the reports as printed (`ReportsAsWritten`) |

## Left out

- Outside programs and services are oracle parameters, never modelled:
  - ffprobe and ffmpeg: the duration is a parameter, and frame and segment extraction are folded into the readers;
  - Whisper: `transcribe`;
  - Tesseract and the PIL preprocessing: the OCR readers `ocr`, `recognise` and `recogniseAgain`;
  - MeCab: `tokenize`;
  - SentenceTransformer and `cos_sim` against `SIM_THRESHOLD`: the `dissimilar` predicate.
- Chroma is modelled by the batch handed to `collection.add`; the store itself, its upsert semantics and the reads of `get_slide_segments` and `get_voice_from_chroma` are not. The embeddings both pipelines compute for their documents are not modelled.
- SQLite is modelled by the `rows` map of `QgTable`.
  - A failing `save_qna` leaves the table as it was, because its connection is released without a commit.
  - The DDL, the open and close calls and locking are not modelled.
- `make_prompt` and `call_ollama` are the `ask` oracle, indexed by iteration. The prompt text and the HTTP call are not modelled.
- `json.loads` and the regex search of `extract_json_array` are the `loads` and `search` oracles.
  - A response whose top-level JSON value is not an array is not modelled.
- `float()` on strings is the `parseFloat` oracle; NaN and infinities are not modelled. Times are exact reals: the float rounding of `(start + end) / 2` is not modelled.
- The clock is a parameter: `stamp` and `createdAt` per call, and `createdat` in the video metadata.
- Python's set iteration order for `set(ocr_prompt_list)` is the `order` oracle.
- Log output is not modelled: `print`, the `DEBUG` and `VERBOSE` switches, and the exception text `{e}`. Reports keep only the printed number and the response shown.
- Not modelled: `os.makedirs`, temporary directories and their removal, and the fallback from the upload path to the local file.
- The hard-coded `video_id`, `course` and `section` of the Q&A scripts are parameters.
- The error prints of the slide-based answer script are not modelled; only its failure files are. The question script's unused `save_failed_output` and `extract_json_array` are not modelled, because nothing calls them.
- The qwen2.5 Q&A scripts, the inspection scripts and the web front end are not part of this model.
- VoiceSplit.SplitVoice: requires a positive piece size. Python's `range` raises on a zero step, and both callers pass 3000 or 22000.
- SlideBoundaries.TruncToInt: for a negative float, only a non-positive result is stated. A video duration is never negative.
- SlideBoundaries.BoundaryListWellFormed: requires a non-negative duration, as does BoundariesWellFormed.
- ChunkPipeline.OcrPrompt: only the 200-character bound and the blank case are stated, because the order of a Python set is unspecified.
- ChunkPipeline.PipelineStores: states that some prompt of at most 200 characters was used, not which one.
- In the two-pass chunk scripts an exception raised by the recogniser is not caught and ends the run. The model takes transcription results as total, so that exit is not modelled.

## Findings

| source | as written | input that shows it | evidently intended | confidence | as-written member | corrected member |
|---|---|---|---|---|---|---|
| back/scripts_for_llama3.1_70B_Instruct/generate_answer.py:126-128 | the error report prints `response[:5000] if 'response' in locals()`; `response` is never reset between iterations, so an iteration whose call raised prints the response of an earlier iteration | two pieces; piece 0's response "x" does not parse, piece 1's call raises: both reports show "x" | each report shows the failing iteration's own response, or "(取得不可)" when its call raised, as back/scripts/generate_answer.py:135 does by resetting `response = None` | not executed | QnaDriver.StaleEcho | QnaDriver.ReportsAreFailures |
| back/older_scripts/generate_answer.py:106-108 | the same report, with the same stale `response` | the same two pieces | the same: the current iteration's response only | not executed | QnaDriver.StaleEcho | QnaDriver.ReportsAreFailures |
| back/scripts/generate_question.py:137-139 | the same report in the slide-based question script | two slides with the same two responses | the same: the current iteration's response only | not executed | QnaDriver.StaleEcho | QnaDriver.ReportsAreFailures |

In these rows:
- `QnaDriver.EchoAsWritten` and `QnaDriver.ReportsAsWritten` model the reports as printed. The `main` loops of the model print them too: `QnaDriver.Iterate` carries the never-reset `response` variable.
- `QnaDriver.Echo` and `QnaDriver.Reports` are the corrected reports.
- `QnaDriver.ReportsAsWrittenAgree` and `QnaDriver.EchoAsWrittenDiffers` state when the two differ: only when a call raised after an earlier call returned.
- The failure files of the slide-based answer script already use the current response, and the model's files follow that.
