# SnapRecap text pipeline, modelled in Dafny

SnapRecap turns a lecture video into a summary. The model covers the text half of that
pipeline:

- **Subtitle writer and parser** (`transcribe.py`). The subtitle writer renders
  transcription segments as SubRip-style blocks. The parser reads such text back with
  one regular expression and turns each match into a record {index, start_time,
  end_time, text}.
- **Sentence chunkers.** There are two. The one in `text_chunks.py` packs whole
  sentences. The one in `summarize.py` first cuts every sentence to the budget. Both
  pack sentences greedily while the running word count stays strictly below the budget.
- **Section assigners.** `summarize_sections.py` spreads transcript records over a list
  of section titles with one forward cursor. `header_detector.py` does the same to build
  a title → indices mapping. `summarize.py` finds headers by keyword in the lines of the
  subtitle file.
- **Summarisers.** These are `get_summary_bart`, `summarize_chunks`,
  `recursive_summarization`, `summarize_section`, `process_transcription` and
  `summarize_whole`. Each turns chunks or sections into a report of
  `Section: …\nSummary: …` blocks.

The BART summarisation pipeline is the parameter `Model`: a function from an input text
and a fixed parameter record to `Ok(summary)` or `Err(message)`. An `Err` stands for a
raised exception. Nothing is assumed about what a summary says. All properties are
therefore about which texts reach the model, in which order, and how outcomes become
the result. `nltk.sent_tokenize` is the parameter `Tokenizer`, a function from a text to
`Some(sentences)` or `None`, where `None` means it raised. Where a lemma says the chunks
re-tile the sentences, it takes the sentences to be non-empty strings, as
`sent_tokenize` returns them; the truncating chunker's lemmas also take a positive
budget, since truncating to zero words empties every sentence.

Files:

| file | module | models |
|---|---|---|
| `strings.dfy` | `Wrappers`, `Strings` | `Option`; the Python string builtins the code relies on: `str.split()`, `" ".join`, `str.strip()`, `str.lower()`, `in`, one-character `replace`, `str(n)`/`int(s)`, `readlines()` |
| `bart.dfy` | `Bart` | The model parameter, its outcomes, the "No content to summarize." sentinel, and `Successes` (the summaries of the calls that succeeded, in call order) |
| `sections.dfy` | `Sections` | The section records and the `"\n\n"`-joined report of `Section: {title}\nSummary: {summary}` blocks |
| `cursors.dfy` | `Cursors` | The forward cursor pass shared by both section assigners |
| `text_chunks.dfy` | `TextChunks` | `text_chunks.py` |
| `summarize.dfy` | `Summarize` | `summarize.py` |
| `summarize_full.dfy` | `SummarizeFull` | `summarize_full.py` |
| `summarize_sections.dfy` | `SummarizeSections` | `summarize_sections.py` |
| `header_detector.dfy` | `HeaderDetector` | `header_detector.py` |
| `transcribe.dfy` | `Transcribe` | The text `generate_subtitle_file` writes, the matcher for the pattern of `split_transcription`, and `split_transcription` itself |
| `subtitle_round_trip.dfy` | `SubtitleRoundTrip` | Reading the subtitle text back |

### How the model is written

- **Loops stay loops.** Where the Python code loops and appends, the model is a
  `method` with a `for` loop. Its invariant ties the loop state to a specification
  function of the prefix processed so far. Examples: `PackState` for the chunkers,
  `Successes` for `get_summary_bart`, `Scan` for `detect_section_headers_one`,
  `SummarizeAll` for the section loop of `process_transcription` (`SummarizeEach`), and
  `Walk`/`Distribute`/`RoutedKey` for the cursor passes. A list comprehension, such as
  the one over the sorted sections in `summarize_sections.py:66`, is a function.
- **Properties go on the specification.** The source's promises are lemmas about these
  functions. Each lemma pairs a function with an independent account of it: for
  example, the routed-to view of the section cursor, the sentence tiling of the
  chunkers, and the parser read against the writer.
- **The regular expression is modelled for its one pattern.**
  `(\d+)\s+([\d:,]+) --> ([\d:,]+)\s+(.*?)(?=\n\d+\s+[\d:,]+ -->|\Z)` under `re.DOTALL`
  is modelled exactly for that pattern, not by a general regex engine. Every greedy run
  but the last `\s+` is followed by something its own class cannot match, so only its
  longest run can lead to a match and backtracking never picks a shorter one. The last
  `\s+` is followed by the lazy group, which always succeeds because the lookahead
  holds at the end of the text, so its longest run is kept too. The lazy text group is
  the shortest prefix after which the lookahead holds.

### Behaviour of the code worth knowing

- `summarize_chunks` (`summarize.py:158-170`, `summarize_full.py:41-53`) is all or
  nothing. One failed call makes the whole result `""`. Only `get_summary_bart` leaves
  out a failed chunk and keeps the others.
- `summarize_whole` (`summarize_full.py:106-120`) wraps the collapsed summary in the
  `Section: Video Summary\nSummary: ` header, then wraps it again. Its collapse test
  counts characters (`len(summary) > 5000`), not words.
- `sort_text_to_section_headers` (`summarize_sections.py:30-49`) raises `IndexError`
  when there are no titles and some text is not blank. `detect_section_headers_with_sections`
  (`header_detector.py:14-36`) raises when there are no titles and some record. The
  model states these as the preconditions `Assignable` and `Mappable`.

## Model

| member | source | states |
|---|---|---|
| Bart.SuccessesAppend | summarize.py:43-61 | The successes of two runs of calls are the successes of each run, concatenated: every call is made, in order, and a failure does not stop the later ones |
| Bart.SuccessesWhenAllOk | summarize_full.py:60-70 | When every call succeeds there is one summary per input, the i-th being the model's summary of the i-th input |
| Bart.SuccessesWhenAllFail | summarize_full.py:67-70 | When every call raises, no summary is kept |
| Bart.SuccessesDependOnInputsOnly | summarize_full.py:61-66 | Models that agree on the inputs give the same successes: the model is consulted only at the inputs |
| Sections.AppendContent | summarize_sections.py:46 | Appending to one section's content keeps every title and changes that content alone |
| Sections.ReportSnoc | summarize.py:241-244 | The report is the earlier blocks, a blank line, then the `Section: {title}\nSummary: {summary}` block of the last record; a single record gives its block alone |
| Sections.ReportAppend | summarize_sections.py:68-70 | Reports of non-empty runs compose with a blank line between them |
| Sections.ReportEmptyIff | summarize_sections.py:68-70 | The report is "" exactly when there are no records |
| Strings.Truncate | summarize.py:137-140 | The truncated text keeps exactly the first n words, and is unchanged when it has at most n words |
| Strings.Strip | summarize.py:45 | The stripped text has no whitespace at either end, and it is empty exactly when the input is all whitespace |
| Strings.StripSlice | summarize.py:45 | Stripping removes only whitespace: the result is a slice of the input with nothing but whitespace before and after it |
| Strings.SplitStrip | summarize.py:45-54 | Stripping never changes the words of a text |
| Strings.SplitJoin | text_chunks.py:35 | The words of a space-joined group are the words of its members, in order |
| Strings.DecimalRoundTrip | transcribe.py:81 | `int(str(n)) == n` for every block number |
| Strings.Lines | summarize.py:77 | The lines concatenate to the file, are non-empty, and hold no newline except as their last character |
| Strings.LinesTerminated | summarize.py:77 | Every line but the last ends in its newline |
| Cursors.WalkStep | summarize_sections.py:41-44 | Per item the cursor stays or moves on by one, and moves on exactly when the item's row says so at the cursor it finds |
| Cursors.WalkBound | summarize_sections.py:41 | The cursor never passes the last section |
| Cursors.WalkMonotone | header_detector.py:25-31 | The cursor never moves back and moves on by at most one section per item |
| Cursors.DistributeRouted | summarize_sections.py:46 | Each section holds exactly the pieces of the items after which the cursor stood at it, in item order |
| Cursors.DistributeAhead | summarize_sections.py:32 | The sections after the cursor are still empty |
| Cursors.RoutedKeyDistinct | header_detector.py:34 | With distinct keys, a key's pieces are those of its one section |
| Cursors.DistributeTiles | summarize_sections.py:35-46 | Nothing is lost and order is kept: the sections, in order, concatenate to the pieces in item order |
| TextChunks.SplitTextIntoChunks | text_chunks.py:21-44 | The loop computes `Chunks`: nothing for an empty document or a raising tokenizer, otherwise the greedy packing of the sentences |
| TextChunks.GroupsTile | text_chunks.py:28-39 | The chunks' sentence groups concatenate to the sentence sequence: no sentence is lost, repeated or reordered |
| TextChunks.GroupsShape | text_chunks.py:31-36 | Only the first group can be empty, and it is empty exactly when the first sentence alone reaches the budget. A group of two or more sentences stays strictly under the budget. The last group is not empty |
| TextChunks.ChunkWords | text_chunks.py:29-35 | A chunk's word count is the summed word count of its sentences |
| TextChunks.PackBounds | text_chunks.py:31 | Every chunk of two or more sentences has fewer words than the budget |
| TextChunks.PackRetiles | text_chunks.py:35-39 | When no sentence is the empty string (as the tokenizer guarantees), the non-empty chunks, space-joined, are the sentences, space-joined |
| TextChunks.ChunksOfNothing | text_chunks.py:22-23 | An empty document or a raising tokenizer gives no chunks |
| TextChunks.LeadingEmptyChunk | text_chunks.py:34-35 | When no sentence is the empty string, the first chunk is "" exactly when the first sentence alone has at least max_tokens words |
| Summarize.SplitTextIntoChunks | summarize.py:123-155 | The truncating loop computes `Chunks` (no chunks for an empty document or a raising tokenizer), and every chunk has at most max_tokens words |
| Summarize.ChunksWithinBudget | summarize.py:137-150 | Every chunk of the truncating chunker has at most max_tokens words, including a lone over-long sentence |
| Summarize.ChunksRetile | summarize.py:142-150 | When the tokenizer succeeds on a non-empty document with no empty sentence and the budget is positive, the non-empty chunks, space-joined, are the truncated sentences, space-joined |
| Summarize.LeadingEmptyChunk | summarize.py:142-147 | Under the same conditions, the first chunk is "" exactly when the first sentence has at least max_tokens words; no later chunk is "" |
| Summarize.InputOfWords | summarize.py:45-58 | A chunk is sent only when it is not blank, and then with between 1 and min(its word count, 1024) words |
| Summarize.BartInputsWords | summarize.py:44-58 | Every text get_summary_bart sends to the model has between 1 and 1024 words |
| Summarize.GetSummaryBart | summarize.py:39-69 | The loop returns the summaries of the successful calls over the stripped, non-blank, 1024-word-truncated chunks, in chunk order, joined by single spaces; "" when there are none |
| Summarize.SummariesStep | summarize.py:44-61 | A blank chunk adds nothing and makes no call; any other chunk adds its call's summary if the call succeeds |
| Summarize.BartInputsAppend | summarize.py:44-50 | The model inputs of two runs of chunks are those of each run, in order |
| Summarize.BartInputsOfOne | summarize.py:45-58 | A blank chunk is skipped; any other chunk is sent stripped, as the first 1024 of its words |
| Summarize.BartSummaryModelUse | summarize.py:47-50 | All-blank chunks give "" and make no call; models that agree on the inputs give the same summary |
| Summarize.RecursiveSummarizationPass | summarize.py:26-36 | A summary within max_tokens words is returned unchanged. Otherwise it is re-chunked once and summarised, and every text the model then sees has between 1 and max_tokens words |
| Summarize.SummarizeChunks | summarize.py:158-170 | When every call succeeds, the summaries joined in chunk order; "" as soon as one call raises |
| Summarize.ComprehensionAllOrNothing | summarize_full.py:41-53 | The comprehension yields every summary in order when every call succeeds, and nothing otherwise |
| Summarize.TwoStageBehaviour | summarize.py:184-190 | The first stage sends chunks of at most 4000 words, and "" results when one of its calls fails. A first summary of at most 5000 words is the result: the joined summaries of those chunks. Over 5000 words, the first stage succeeded and the result is the joined summaries of that summary's chunks of at most 1000 words each, or "" when one of those calls fails |
| Summarize.SummarizeSection | summarize.py:173-181 | The title passes through, and blank content gives the sentinel |
| Summarize.SummarizeSectionOutcomes | summarize.py:177-194 | Blank content never reaches the model. A failing first-stage call gives the summary "", never the error text |
| Summarize.Classify | summarize.py:99-104 | A line is skipped exactly when its stripped form contains "-->". It is a header exactly when it contains no "-->" and does contain a keyword, and then its title is the stripped line and not empty. Otherwise it is body text, stripped |
| Summarize.DetectSectionHeadersOne | summarize.py:72-120 | The loop computes `DetectOne`. The titles are the header lines in order, and the contents concatenate to the body lines after the first header, each stripped and followed by a space |
| Summarize.ScanStep | summarize.py:98-114 | The scan after one more line is one step of the line loop |
| Summarize.DetectOneCharacterised | summarize.py:98-118 | A section is open exactly when a header was seen. The titles are the header titles; the contents are the body text after the first header |
| Summarize.ScanLineEmitted | summarize.py:104-114 | A header line adds one title and no content. A timestamp line changes nothing. A body line adds its text and a space only when a section is open |
| Summarize.HeaderEmitted | summarize.py:104-110 | A header line closes the open section and opens an empty one under its title |
| Summarize.BodyEmitted | summarize.py:113-114 | A body line extends the open section, and is dropped before the first header |
| Summarize.HeaderTitlesFrom | summarize.py:110 | Every title comes from a header line |
| Summarize.DetectOneTitles | summarize.py:98-118 | Every detected title is non-empty, holds a keyword, holds no "-->", and is the stripped form of some line |
| Summarize.SummarizeAll | summarize.py:235-238 | One summary per section, in section order |
| Summarize.SummarizeEach | summarize.py:235-238 | The loop appends exactly `SummarizeAll`'s summaries: one per section, in section order |
| Summarize.ProcessTranscriptionWhole | summarize.py:203-221 | Without sections, an empty file gives the sentinel alone; otherwise one `Section: Video Summary` block around the two-stage summary |
| Summarize.ProcessTranscriptionSections | summarize.py:227-244 | With sections, the report has one block per header line of the file, in line order, and is "" exactly when the file has none |
| SummarizeFull.GetSummaryBart | summarize_full.py:56-70 | Every chunk, as it is, is sent once in order. The summaries of the successful calls are joined by single spaces |
| SummarizeFull.ChunkContribution | summarize_full.py:61-68 | Each chunk contributes its own outcome in its place between those of the chunks before and after it |
| SummarizeFull.FullSummaryOutcomes | summarize_full.py:61-70 | All calls failing, or no chunks, give "". All succeeding give every summary in order |
| SummarizeFull.EmptyChunkSent | summarize_full.py:61-66 | An empty chunk is not skipped |
| SummarizeFull.RecursiveSummarizationPass | summarize_full.py:28-38 | The identity within max_tokens words. Otherwise a single pass over the chunks of the non-truncating chunker; "" when the tokenizer raises; and, when no sentence is the empty string, the chunks re-tile the summary's sentences |
| SummarizeFull.SummarizeWhole | summarize_full.py:85-120 | An empty transcript gives the sentinel. Otherwise the header plus the summary of the 4000-word chunks; when that summary is over 5000 characters, the header twice plus the summary of its 1000-word chunks |
| SummarizeSections.SummarizeSection | summarize_sections.py:10-27 | The title passes through. Empty content gives the sentinel. Otherwise it is the model's summary of the unstripped content, or the error prefix and message when the call raises |
| SummarizeSections.SummarizeSectionModelUse | summarize_sections.py:14-21 | The model is consulted once, only at the content, and never for empty content |
| SummarizeSections.Piece | summarize_sections.py:36-46 | A text contributes nothing exactly when it is blank |
| SummarizeSections.SortTextToSectionHeaders | summarize_sections.py:30-49 | The loop keeps the titles in order and gives each section the content `Assigned`: the stripped non-blank texts routed to it by the cursor, each followed by a space |
| SummarizeSections.CursorMonotone | summarize_sections.py:41-44 | The cursor never moves back, rises by at most one per text, and stays on a title |
| SummarizeSections.AssignedRouted | summarize_sections.py:35-46 | A section's content is exactly the pieces of the texts after which the cursor stood at it, in text order |
| SummarizeSections.AssignedTiles | summarize_sections.py:35-46 | The contents, in section order, concatenate to the pieces of all texts in text order |
| SummarizeSections.SortedShape | summarize_sections.py:32 | The sections are the titles in order, and each starts empty |
| SummarizeSections.SummarizeAll | summarize_sections.py:66 | One summary per sorted section, in order |
| SummarizeSections.ProcessTranscriptionReport | summarize_sections.py:52-73 | One block per title, in title order, summarising that title's assigned content; "" exactly when there are no titles |
| HeaderDetector.TruePositionsExact | header_detector.py:25-29 | The positions list holds exactly the positions whose flag is set, in increasing order |
| HeaderDetector.PositionsExact | header_detector.py:25-29 | `next_section_start` is exactly the increasing list of positions of the records whose text mentions the marker |
| HeaderDetector.FirstMention | header_detector.py:30 | The first entry of `next_section_start` mentions the marker, and no earlier record does |
| HeaderDetector.DetectSectionHeadersWithSections | header_detector.py:14-36 | The mapping has one key per distinct title. Each key's list holds the indices of the records after which the cursor stood at a section with that title, in record order |
| HeaderDetector.AdvanceCursor | header_detector.py:24-31 | The loop head moves the cursor exactly as the specification cursor does |
| HeaderDetector.DetectSectionHeadersWithoutSections | header_detector.py:8-11 | The empty mapping |
| HeaderDetector.DetectSectionHeaders | header_detector.py:1-5 | No titles give the empty mapping; otherwise the mapping of the section pass |
| HeaderDetector.CursorStep | header_detector.py:24-31 | The cursor moves on exactly when there is a next title, it is mentioned somewhere, and the record's index is at least its first mention's position |
| HeaderDetector.CursorMonotone | header_detector.py:24-31 | The cursor never moves back, rises by at most one per record, and stays on a title |
| HeaderDetector.MentionAdvances | header_detector.py:24-31 | A record that mentions the next title, and whose index is at least its position, moves the cursor on |
| HeaderDetector.EarlyAdvance | header_detector.py:24-31 | With 1-based indices, the record just before the first mention already moves the cursor on, though it does not mention the title |
| HeaderDetector.RoutedDistinct | header_detector.py:34 | With distinct titles, a title's list is the indices routed to its position |
| HeaderDetector.MappingTiles | header_detector.py:14-36 | With distinct titles every index lands in exactly one list, and the lists in title order concatenate to the indices in record order |
| Transcribe.GenerateSubtitleText | transcribe.py:77-84 | The loop builds `Render`: one block per segment, numbered from 1, in order |
| Transcribe.RenderCons | transcribe.py:78-84 | The rendering is the first block followed by the rest, numbered on |
| Transcribe.RenderContainsBlocks | transcribe.py:78-84 | Every segment's block, numbered by its position, appears in the text |
| Transcribe.LazyLengthStops | transcribe.py:95 | The lazy text group `(.*?)` ends at a position where the lookahead holds: the next block's head or the end of the text |
| Transcribe.LazyLengthShortest | transcribe.py:95 | The lazy text group takes the shortest such prefix: the lookahead holds at no earlier position |
| Transcribe.MatchAtShaped | transcribe.py:95 | The groups of any match are `\d+`, `[\d:,]+` and `[\d:,]+` runs |
| Transcribe.FindAllShaped | transcribe.py:96 | Every match findall returns has those group shapes |
| Transcribe.SplitTranscription | transcribe.py:93-110 | The loop returns the normalised records of the pattern's matches, in order |
| Transcribe.NormalizeFields | transcribe.py:100-107 | A record holds its digits' integer value and its two times unchanged (stripping a `[\d:,]+` run is the identity). Its text has no newline and no whitespace at either end |
| Transcribe.ParsedFields | transcribe.py:93-110 | Every parsed record has non-empty `[\d:,]` times and a clean text |
| Transcribe.NoArrowNoChunks | transcribe.py:95-96 | A text without " --> " yields no records |
| SubtitleRoundTrip.FindAllBlocks | transcribe.py:95-96 | Over rendered blocks, findall yields one match per block, each carrying the block's number, times and captured text |
| SubtitleRoundTrip.ParseRender | transcribe.py:72-110 | Reading back written subtitles yields one record per segment, in order, numbered from 1, with the segment's times and its stripped text |
| SubtitleRoundTrip.BlankTextSwallowsNext | transcribe.py:81-96 | A first segment with a blank text is not well-formed, and two segments read back as one record, numbered 1, whose text is the whole second block, when the second text does not start with a digit |

## Left out

- File reading and writing are not modelled. `read_file`, `open`/`read`/`readlines`
  and `save_summary_to_file` (`summarize_full.py:73-82`, a no-op here) take or drop the
  text directly. The subtitle file name and the `temp_` renaming of
  `generate_subtitle_file` are not modelled.
- Logging and `print` have no observable effect on results and are left out.
- `format_time`, audio extraction, Whisper transcription, the cuDNN check,
  `process_video`, `main.py`, `api.py` and `file_util.py` lie outside the text
  pipeline. Segments carry their times as already formatted strings.
- Loading the BART pipeline and `nltk.download` are left out. The model and the
  tokenizer are parameters, and the parameter record is opaque configuration.
- Strings.Lower: lower-cases ASCII letters only, not Unicode case mapping.
- Strings.IsDigit: `\d` and `int()` are taken on ASCII digits only. Python also
  accepts other Unicode decimal digits.
- Negative budgets are not modelled. `max_tokens` is a natural number; a negative one
  would make Python slice from the end.
- The argument of `summarize.py`'s `process_transcription` only matters as `None` or
  not; its value is ignored, as in the source.
- Summarize.SummarizeSection: the `except` branch (`summarize.py:192-193`) is not
  modelled. `split_text_into_chunks` and `summarize_chunks` catch every exception
  themselves, so it cannot be reached.
- SummarizeSections.SortTextToSectionHeaders: requires `Assignable`. With no titles and
  a non-blank text, the source raises `IndexError`; that crash is not modelled.
- HeaderDetector.DetectSectionHeadersWithSections: requires `Mappable`. With no titles
  and at least one record, the source raises `IndexError`; that crash is not modelled.
  A falsy non-list `sections` argument is taken as the empty list.
- HeaderDetector.DetectSectionHeadersWithSections: duplicate titles share one list.
  The contract describes that shared list (`Routed` by title); the per-position lemmas
  assume distinct titles.
- SubtitleRoundTrip.ParseRender: holds only for well-formed segments: times written in
  `[\d:,]+` (as `format_time` writes them) and a one-line text with a non-space
  character. With a blank text, the `\s+` before the text group runs into the next
  block; `BlankTextSwallowsNext` shows two segments read back as one record.
- HeaderDetector.DetectSectionHeadersWithSections: the mapping is a Dafny `map`, so
  the insertion order of the dict's keys (`header_detector.py:15`) is not modelled.
- Summarize.Classify: `HasKeyword` tests the eight keywords of `summarize.py:83-92` as
  plain substrings, with no word boundaries, as the source does.
