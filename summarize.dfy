/**
  summarize.py: the truncating chunker, the skip-and-continue summariser
  (get_summary_bart), the all-or-nothing summariser (summarize_chunks), the single
  collapse pass (recursive_summarization), the keyword line splitter
  (detect_section_headers_one), section summaries and the report of
  process_transcription.
*/
module Summarize {
  import opened Wrappers
  import opened Strings
  import opened Bart
  import opened Sections
  import TextChunks

  /** The fixed `bart_params` keyword arguments. */
  const BartParams: Params := Params(124, 30, false, Some(true), Some(2.0))

  /** Chunks longer than this many words are cut before a model call. */
  const ModelInputWords: nat := 1024

  /** The budgets of the two summarisation stages and the collapse threshold. */
  const FirstBudget: nat := 4000
  const CollapseThreshold: nat := 5000
  const CollapseBudget: nat := 1000

  function Words(s: string): nat { |Split(s)| }

  /** `not s.strip()`: nothing but whitespace (Strip's own contract makes the two
      readings equal). */
  predicate Blank(s: string) { AllSpace(s) }

  // ----- split_text_into_chunks: the truncating chunker -----

  /** Every sentence over the budget cut to its first maxTokens words. */
  function TruncateEach(sentences: seq<string>, maxTokens: nat): (r: seq<string>)
    ensures |r| == |sentences|
    ensures forall i :: 0 <= i < |sentences| ==> r[i] == Truncate(sentences[i], maxTokens)
  {
    seq(|sentences|, i requires 0 <= i < |sentences| => Truncate(sentences[i], maxTokens))
  }

  /** What the truncating split_text_into_chunks returns: the greedy packing of the
      truncated sentences. */
  function Chunks(document: string, maxTokens: nat, tokenize: TextChunks.Tokenizer): seq<string>
  {
    if document == "" then []
    else match tokenize(document)
      case None => []
      case Some(sentences) => TextChunks.Pack(TruncateEach(sentences, maxTokens), maxTokens)
  }

  method SplitTextIntoChunks(document: string, maxTokens: nat, tokenize: TextChunks.Tokenizer)
    returns (chunks: seq<string>)
    ensures chunks == Chunks(document, maxTokens, tokenize)
    ensures document == "" || tokenize(document).None? ==> chunks == []
    ensures forall i :: 0 <= i < |chunks| ==> Words(chunks[i]) <= maxTokens
  {
    if document == "" {
      return [];
    }
    var tokens := tokenize(document);
    if tokens.None? {
      return [];
    }
    var sentences := tokens.value;
    ghost var truncated := TruncateEach(sentences, maxTokens);
    chunks := [];
    var current: seq<string> := [];
    var currentLength: nat := 0;
    for i := 0 to |sentences|
      invariant chunks == TextChunks.JoinEach(TextChunks.PackState(truncated[..i], maxTokens).sealed)
      invariant current == TextChunks.PackState(truncated[..i], maxTokens).open
      invariant currentLength == TextChunks.PackState(truncated[..i], maxTokens).openLength
    {
      var sentence := sentences[i];
      var sentenceLength := |Split(sentence)|;
      if sentenceLength > maxTokens {
        sentence := Join(Split(sentence)[..maxTokens], " ");
        sentenceLength := maxTokens;
      }
      assert sentence == truncated[i] && sentenceLength == TextChunks.Words(sentence);
      assert truncated[..i + 1][..i] == truncated[..i];
      if currentLength + sentenceLength < maxTokens {
        current := current + [sentence];
        currentLength := currentLength + sentenceLength;
      } else {
        TextChunks.JoinEachSnoc(TextChunks.PackState(truncated[..i], maxTokens).sealed, current);
        chunks := chunks + [Join(current, " ")];
        current, currentLength := [sentence], sentenceLength;
      }
    }
    assert truncated[..|sentences|] == truncated;
    if current != [] {
      TextChunks.JoinEachSnoc(TextChunks.PackState(truncated, maxTokens).sealed, current);
      chunks := chunks + [Join(current, " ")];
    }
    ChunksWithinBudget(document, maxTokens, tokenize);
  }

  /** Every chunk of the truncating chunker has at most maxTokens words. */
  lemma ChunksWithinBudget(document: string, maxTokens: nat, tokenize: TextChunks.Tokenizer)
    ensures forall i :: 0 <= i < |Chunks(document, maxTokens, tokenize)| ==>
              Words(Chunks(document, maxTokens, tokenize)[i]) <= maxTokens
  {
    if document != "" && tokenize(document).Some? {
      var t := TruncateEach(tokenize(document).value, maxTokens);
      var g := TextChunks.Groups(t, maxTokens);
      TextChunks.GroupsShape(t, maxTokens);
      TextChunks.GroupsTile(t, maxTokens);
      forall i | 0 <= i < |g| ensures Words(Join(g[i], " ")) <= maxTokens {
        TextChunks.ChunkWords(g[i]);
        if |g[i]| == 1 {
          TextChunks.FlattenMember(g, i, 0);
          assert TextChunks.WordCount(g[i]) == TextChunks.WordCount([]) + TextChunks.Words(g[i][0]);
        } else if |g[i]| == 0 {
          assert Join(g[i], " ") == "";
        }
      }
    }
  }

  lemma TruncateNonEmpty(s: string, maxTokens: nat)
    requires s != "" && maxTokens > 0
    ensures Truncate(s, maxTokens) != ""
  {
    if |Split(s)| > maxTokens {
      assert |Split(Truncate(s, maxTokens))| >= 1;
    }
  }

  /** Re-tiling: with a positive budget and non-empty sentences, the non-empty chunks
      joined with single spaces are the truncated sentences joined with single spaces. */
  lemma ChunksRetile(document: string, maxTokens: nat, tokenize: TextChunks.Tokenizer)
    requires document != "" && tokenize(document).Some? && maxTokens > 0
    requires forall i :: 0 <= i < |tokenize(document).value| ==> tokenize(document).value[i] != ""
    ensures Join(TextChunks.NonEmpty(Chunks(document, maxTokens, tokenize)), " ")
         == Join(TruncateEach(tokenize(document).value, maxTokens), " ")
  {
    var ss := tokenize(document).value;
    forall i | 0 <= i < |ss| ensures TruncateEach(ss, maxTokens)[i] != "" {
      TruncateNonEmpty(ss[i], maxTokens);
    }
    TextChunks.PackRetiles(TruncateEach(ss, maxTokens), maxTokens);
  }

  /** The quirk of the strict test: the first chunk is "" exactly when the first
      sentence has at least maxTokens words; only the first chunk can be "". */
  lemma LeadingEmptyChunk(document: string, maxTokens: nat, tokenize: TextChunks.Tokenizer)
    requires document != "" && tokenize(document).Some? && maxTokens > 0
    requires forall i :: 0 <= i < |tokenize(document).value| ==> tokenize(document).value[i] != ""
    ensures var c := Chunks(document, maxTokens, tokenize);
            var ss := tokenize(document).value;
      && ((|c| > 0 && c[0] == "") <==> (ss != [] && Words(ss[0]) >= maxTokens))
      && (forall i :: 1 <= i < |c| ==> c[i] != "")
  {
    var ss := tokenize(document).value;
    var t := TruncateEach(ss, maxTokens);
    forall i | 0 <= i < |ss| ensures t[i] != "" {
      TruncateNonEmpty(ss[i], maxTokens);
    }
    TextChunks.LeadingEmptyChunk(t, maxTokens);
    var g := TextChunks.Groups(t, maxTokens);
    TextChunks.GroupsShape(t, maxTokens);
    TextChunks.GroupsTile(t, maxTokens);
    forall i | 1 <= i < |g| ensures Join(g[i], " ") != "" {
      forall j | 0 <= j < |g[i]| ensures g[i][j] != "" {
        TextChunks.FlattenMember(g, i, j);
      }
      TextChunks.JoinNonEmptyStrings(g[i]);
    }
  }

  // ----- get_summary_bart -----

  /** The text passed to the model for a non-blank chunk: stripped, then cut to its
      first 1024 words when longer. */
  function ModelInput(chunk: string): string
  {
    Truncate(Strip(chunk), ModelInputWords)
  }

  /** The model input a single chunk contributes: none when it is blank. */
  function InputOf(chunk: string): (inputs: seq<string>)
    ensures |inputs| <= 1
  {
    if Blank(chunk) then [] else [ModelInput(chunk)]
  }

  /** The input a chunk contributes has at least one word, and no more than the chunk
      or 1024. */
  lemma InputOfWords(chunk: string)
    ensures forall x :: x in InputOf(chunk) ==> 1 <= Words(x) <= Min(Words(chunk), ModelInputWords)
  {
    if !Blank(chunk) {
      SplitNonBlank(chunk);
      SplitStrip(chunk);
    }
  }

  /** The model inputs of get_summary_bart, in chunk order: blank chunks are skipped. */
  function BartInputs(chunks: seq<string>): (inputs: seq<string>)
    ensures |inputs| <= |chunks|
  {
    if chunks == [] then []
    else BartInputs(chunks[..|chunks| - 1]) + InputOf(chunks[|chunks| - 1])
  }

  /** Every model input has at least one word and at most 1024. */
  lemma {:induction false} BartInputsWords(chunks: seq<string>)
    ensures forall x :: x in BartInputs(chunks) ==> 1 <= Words(x) <= ModelInputWords
    decreases |chunks|
  {
    if chunks != [] {
      BartInputsWords(chunks[..|chunks| - 1]);
      InputOfWords(chunks[|chunks| - 1]);
    }
  }

  /** What get_summary_bart returns: the successful summaries joined by single spaces
      ("" when there are none). */
  function BartSummary(chunks: seq<string>, model: Model): string
  {
    Join(Successes(model, BartParams, BartInputs(chunks)), " ")
  }

  method GetSummaryBart(listChunks: seq<string>, model: Model) returns (r: string)
    ensures r == Join(Successes(model, BartParams, BartInputs(listChunks)), " ")
  {
    var summaries: seq<string> := [];
    for idx := 0 to |listChunks|
      invariant summaries == Successes(model, BartParams, BartInputs(listChunks[..idx]))
    {
      SummariesStep(listChunks, idx, model);
      var chunk := Strip(listChunks[idx]);
      if chunk == "" {
        continue;
      }
      if |Split(chunk)| > 1024 {
        chunk := Join(Split(chunk)[..1024], " ");
      }
      assert chunk == ModelInput(listChunks[idx]);
      var outcome := model(chunk, BartParams);
      if outcome.Ok? {
        summaries := summaries + [outcome.summary];
      }
    }
    assert listChunks[..|listChunks|] == listChunks;
    if summaries != [] {
      r := Join(summaries, " ");
    } else {
      r := "";
    }
  }

  /** One iteration of get_summary_bart: a blank chunk adds nothing, any other chunk
      adds the outcome of one model call on its model input. */
  lemma SummariesStep(chunks: seq<string>, idx: nat, model: Model)
    requires idx < |chunks|
    ensures Successes(model, BartParams, BartInputs(chunks[..idx + 1])) ==
      Successes(model, BartParams, BartInputs(chunks[..idx]))
      + (if Blank(chunks[idx]) then [] else Kept(model(ModelInput(chunks[idx]), BartParams)))
  {
    var sent := BartInputs(chunks[..idx]);
    assert chunks[..idx + 1] == chunks[..idx] + [chunks[idx]];
    BartInputsSnoc(chunks[..idx], chunks[idx]);
    if Blank(chunks[idx]) {
      assert sent + [] == sent;
    } else {
      SuccessesAppend(model, BartParams, sent, [ModelInput(chunks[idx])]);
      assert [ModelInput(chunks[idx])][..0] == [];
    }
  }

  lemma {:induction false} BartInputsSnoc(chunks: seq<string>, chunk: string)
    ensures BartInputs(chunks + [chunk]) == BartInputs(chunks) + InputOf(chunk)
  {
    assert (chunks + [chunk])[..|chunks|] == chunks;
  }

  lemma {:induction false} BartInputsLast(a: seq<string>, b: seq<string>)
    requires b != []
    ensures BartInputs(a + b) == BartInputs(a + b[..|b| - 1]) + InputOf(b[|b| - 1])
  {
    var c := a + b[..|b| - 1];
    var l := b[|b| - 1];
    assert a + b == c + [l];
    BartInputsSnoc(c, l);
  }

  /** Skipping keeps order: the inputs of a concatenation are the inputs of its parts. */
  lemma {:induction false} BartInputsAppend(a: seq<string>, b: seq<string>)
    ensures BartInputs(a + b) == BartInputs(a) + BartInputs(b)
    decreases |b|
  {
    if b == [] {
      assert a + b == a;
    } else {
      BartInputsAppend(a, b[..|b| - 1]);
      BartInputsLast(a, b);
      AppendAssoc(BartInputs(a), BartInputs(b[..|b| - 1]), InputOf(b[|b| - 1]));
    }
  }

  /** A blank chunk is never sent to the model; a non-blank one is sent once, stripped
      and cut to its first 1024 words. */
  lemma {:induction false} BartInputsOfOne(chunk: string)
    ensures BartInputs([chunk]) == if Blank(chunk) then [] else [ModelInput(chunk)]
    ensures !Blank(chunk) ==> Split(ModelInput(chunk)) == Split(chunk)[..Min(Words(chunk), ModelInputWords)]
  {
    assert [chunk][..0] == [];
    SplitStrip(chunk);
  }

  /** When every chunk is blank no call is made at all and the result is "", whatever
      the model; otherwise the result depends on the model only at the inputs sent. */
  lemma {:induction false} BartSummaryModelUse(chunks: seq<string>, m1: Model, m2: Model)
    ensures (forall i :: 0 <= i < |chunks| ==> Blank(chunks[i])) ==>
              BartInputs(chunks) == [] && BartSummary(chunks, m1) == ""
    ensures (forall x :: x in BartInputs(chunks) ==> m1(x, BartParams) == m2(x, BartParams)) ==>
              BartSummary(chunks, m1) == BartSummary(chunks, m2)
  {
    AllBlankNoInputs(chunks);
    var inputs := BartInputs(chunks);
    if forall x :: x in inputs ==> m1(x, BartParams) == m2(x, BartParams) {
      SuccessesDependOnInputsOnly(m1, m2, BartParams, inputs);
    }
  }

  lemma {:induction false} AllBlankNoInputs(chunks: seq<string>)
    ensures (forall i :: 0 <= i < |chunks| ==> Blank(chunks[i])) ==> BartInputs(chunks) == []
    decreases |chunks|
  {
    if chunks != [] {
      AllBlankNoInputs(chunks[..|chunks| - 1]);
    }
  }

  // ----- recursive_summarization -----

  /** recursive_summarization: the input itself when it is within the budget, otherwise
      exactly one re-chunk and get_summary_bart pass (no loop to a fixed point). */
  function RecursiveSummarization(summary: string, maxTokens: nat, tokenize: TextChunks.Tokenizer,
                                  model: Model): string
  {
    if |Split(summary)| <= maxTokens then summary
    else BartSummary(Chunks(summary, maxTokens, tokenize), model)
  }

  /** The identity fast path, and the single pass otherwise: every text the pass sends
      to the model is a non-blank chunk of at most maxTokens words. */
  lemma RecursiveSummarizationPass(summary: string, maxTokens: nat, tokenize: TextChunks.Tokenizer,
                                   model: Model)
    ensures Words(summary) <= maxTokens ==> RecursiveSummarization(summary, maxTokens, tokenize, model) == summary
    ensures Words(summary) > maxTokens ==>
      && RecursiveSummarization(summary, maxTokens, tokenize, model)
         == Join(Successes(model, BartParams, BartInputs(Chunks(summary, maxTokens, tokenize))), " ")
      && forall x :: x in BartInputs(Chunks(summary, maxTokens, tokenize)) ==> 1 <= Words(x) <= maxTokens
  {
    var chunks := Chunks(summary, maxTokens, tokenize);
    ChunksWithinBudget(summary, maxTokens, tokenize);
    InputsWithinBudget(chunks, maxTokens);
    BartInputsWords(chunks);
  }

  /** Model inputs never have more words than the chunks they come from. */
  lemma {:induction false} InputsWithinBudget(chunks: seq<string>, maxTokens: nat)
    requires forall i :: 0 <= i < |chunks| ==> Words(chunks[i]) <= maxTokens
    ensures forall x :: x in BartInputs(chunks) ==> Words(x) <= maxTokens
    decreases |chunks|
  {
    if chunks != [] {
      var last := chunks[|chunks| - 1];
      InputsWithinBudget(chunks[..|chunks| - 1], maxTokens);
      SplitStrip(last);
    }
  }

  // ----- summarize_chunks -----

  /** The list comprehension of summarize_chunks: a summary per chunk, in order, or None
      as soon as one call raises. */
  function Comprehension(chunks: seq<string>, model: Model, params: Params): Option<seq<string>>
  {
    if chunks == [] then Some([])
    else match model(chunks[0], params)
      case Err(_) => None
      case Ok(t) =>
        match Comprehension(chunks[1..], model, params)
        case None => None
        case Some(ts) => Some([t] + ts)
  }

  /** summarize_chunks is all or nothing: every summary joined by single spaces when
      every call succeeds, "" as soon as one fails. */
  function SummarizeChunks(chunks: seq<string>, model: Model, params: Params): (r: string)
    ensures AllOk(model, params, chunks) ==> r == Join(Successes(model, params, chunks), " ")
    ensures !AllOk(model, params, chunks) ==> r == ""
  {
    ComprehensionAllOrNothing(chunks, model, params);
    match Comprehension(chunks, model, params)
    case None => ""
    case Some(summaries) => Join(summaries, " ")
  }

  lemma {:induction false} ComprehensionAllOrNothing(chunks: seq<string>, model: Model, params: Params)
    ensures Comprehension(chunks, model, params) ==
      if AllOk(model, params, chunks) then Some(Successes(model, params, chunks)) else None
  {
    if chunks != [] {
      var rest := chunks[1..];
      ComprehensionAllOrNothing(rest, model, params);
      if model(chunks[0], params).Ok? {
        if AllOk(model, params, chunks) {
          assert AllOk(model, params, rest) by {
            forall i | 0 <= i < |rest| ensures model(rest[i], params).Ok? {
              assert rest[i] == chunks[i + 1];
            }
          }
          assert chunks == [chunks[0]] + rest;
          SuccessesAppend(model, params, [chunks[0]], rest);
          assert [chunks[0]][..0] == [];
          assert Successes(model, params, [chunks[0]]) == [model(chunks[0], params).summary];
          assert Successes(model, params, chunks)
              == [model(chunks[0], params).summary] + Successes(model, params, rest);
        } else {
          var i :| 0 <= i < |chunks| && !model(chunks[i], params).Ok?;
          assert rest[i - 1] == chunks[i];
        }
      }
    }
  }

  // ----- the two summarisation stages of summarize_section and process_transcription -----

  /** Chunk at 4000 words and summarise; when that summary has more than 5000 words,
      chunk it at 1000 words and summarise once more. */
  function TwoStage(text: string, tokenize: TextChunks.Tokenizer, model: Model): string
  {
    var first := SummarizeChunks(Chunks(text, FirstBudget, tokenize), model, BartParams);
    if Words(first) > CollapseThreshold
    then SummarizeChunks(Chunks(first, CollapseBudget, tokenize), model, BartParams)
    else first
  }

  /** What the model is asked and what comes back. The first stage gives the model
      chunks of at most 4000 words; when its summary has at most 5000 words that
      summary is the result: the model's summaries of those chunks, space-joined, or ""
      when a call failed. Over 5000 words the first stage must have succeeded, and the
      result is the space-joined summaries of chunks of that summary of at most 1000
      words each, or "" when one of those calls failed. */
  lemma TwoStageBehaviour(text: string, tokenize: TextChunks.Tokenizer, model: Model)
    ensures var chunks := Chunks(text, FirstBudget, tokenize);
      var first := SummarizeChunks(chunks, model, BartParams);
      var r := TwoStage(text, tokenize, model);
      && (forall i :: 0 <= i < |chunks| ==> Words(chunks[i]) <= FirstBudget)
      && (!AllOk(model, BartParams, chunks) ==> r == "")
      && (Words(first) <= CollapseThreshold && AllOk(model, BartParams, chunks) ==>
            r == Join(Successes(model, BartParams, chunks), " "))
      && (Words(first) > CollapseThreshold ==>
            var again := Chunks(first, CollapseBudget, tokenize);
            && AllOk(model, BartParams, chunks)
            && first == Join(Successes(model, BartParams, chunks), " ")
            && (forall i :: 0 <= i < |again| ==> Words(again[i]) <= CollapseBudget)
            && (AllOk(model, BartParams, again) ==> r == Join(Successes(model, BartParams, again), " "))
            && (!AllOk(model, BartParams, again) ==> r == ""))
  {
    var first := SummarizeChunks(Chunks(text, FirstBudget, tokenize), model, BartParams);
    ChunksWithinBudget(text, FirstBudget, tokenize);
    ChunksWithinBudget(first, CollapseBudget, tokenize);
    assert Split("") == [];
  }

  // ----- summarize_section -----

  /** summarize_section: the title passes through unchanged; blank content gives the
      sentinel without a model call; otherwise the two-stage summary of the stripped
      content.  The except branch of the source cannot be reached: every callee
      catches its own exceptions. */
  function SummarizeSection(section: Section, tokenize: TextChunks.Tokenizer, model: Model): (r: SectionSummary)
    ensures r.title == section.title
    ensures Blank(section.content) ==> r.summary == NoContent
  {
    var content := Strip(section.content);
    if content == "" then SectionSummary(section.title, NoContent)
    else SectionSummary(section.title, TwoStage(content, tokenize, model))
  }

  /** Blank content never reaches the model: the summary is the same for every model.
      When the first summarisation call fails, the section's summary is "" rather
      than an error message. */
  lemma SummarizeSectionOutcomes(section: Section, tokenize: TextChunks.Tokenizer, m1: Model, m2: Model)
    ensures Blank(section.content) ==>
              SummarizeSection(section, tokenize, m1) == SummarizeSection(section, tokenize, m2)
    ensures !Blank(section.content) && !AllOk(m1, BartParams, Chunks(Strip(section.content), FirstBudget, tokenize)) ==>
              SummarizeSection(section, tokenize, m1).summary == ""
  {
    TwoStageBehaviour(Strip(section.content), tokenize, m1);
  }

  // ----- detect_section_headers_one -----

  const SectionKeywords: seq<string> :=
    ["What is", "How does", "Introduction", "Overview", "Conclusion", "conclusion", "Summary", "Getting started"]

  /** `any(keyword in line for keyword in section_keywords)`, case-sensitive. */
  predicate HasKeyword(line: string)
  {
    exists k :: 0 <= k < |SectionKeywords| && Contains(line, SectionKeywords[k])
  }

  /** How the loop treats one line, after stripping it: skipped as a timestamp line,
      opening a section, or body text. */
  datatype LineKind = Timestamp | Header(title: string) | Body(text: string)

  function Classify(line: string): (k: LineKind)
    ensures k.Timestamp? <==> Contains(Strip(line), "-->")
    ensures k.Header? <==> !Contains(Strip(line), "-->") && HasKeyword(Strip(line))
    ensures k.Header? ==> k.title == Strip(line) && k.title != ""
    ensures k.Body? ==> k.text == Strip(line)
  {
    var stripped := Strip(line);
    if Contains(stripped, "-->") then Timestamp
    else if HasKeyword(stripped) then
      KeywordLineNotEmpty(stripped);
      Header(stripped)
    else Body(stripped)
  }

  /** The loop state: the sections saved so far and the open `current_section`, whose
      title is None until the first keyword line. */
  datatype HeaderScan = HeaderScan(sections: seq<Section>, title: Option<string>, content: string)

  /** Python truthiness of `current_section["title"]`. */
  predicate Titled(st: HeaderScan) { st.title.Some? && st.title.value != "" }

  function ScanLine(st: HeaderScan, kind: LineKind): HeaderScan
  {
    match kind
    case Timestamp => st
    case Header(t) =>
      HeaderScan(if Titled(st) then st.sections + [Section(st.title.value, st.content)] else st.sections,
                 Some(t), "")
    case Body(text) =>
      if Titled(st) then HeaderScan(st.sections, st.title, st.content + text + " ") else st
  }

  function Kinds(lines: seq<string>): (ks: seq<LineKind>)
    ensures |ks| == |lines| && forall i :: 0 <= i < |lines| ==> ks[i] == Classify(lines[i])
  {
    seq(|lines|, i requires 0 <= i < |lines| => Classify(lines[i]))
  }

  function Scan(kinds: seq<LineKind>): HeaderScan
  {
    if kinds == [] then HeaderScan([], None, "")
    else ScanLine(Scan(kinds[..|kinds| - 1]), kinds[|kinds| - 1])
  }

  /** The saved sections followed by the open one, when it has a title. */
  function Emitted(st: HeaderScan): seq<Section>
  {
    if Titled(st) then st.sections + [Section(st.title.value, st.content)] else st.sections
  }

  /** What detect_section_headers_one returns for the given lines. */
  function DetectOne(lines: seq<string>): seq<Section>
  {
    Emitted(Scan(Kinds(lines)))
  }

  method DetectSectionHeadersOne(lines: seq<string>) returns (sections: seq<Section>)
    ensures sections == DetectOne(lines)
    ensures Titles(sections) == HeaderTitles(Kinds(lines))
    ensures Flatten(Contents(sections)) == BodyText(Kinds(lines))
  {
    sections := [];
    var currentTitle: Option<string> := None;
    var currentContent := "";
    for i := 0 to |lines|
      invariant HeaderScan(sections, currentTitle, currentContent) == Scan(Kinds(lines[..i]))
    {
      ScanStep(lines, i);
      var strippedLine := Strip(lines[i]);
      if Contains(strippedLine, "-->") {
        continue;
      }
      if HasKeyword(strippedLine) {
        if currentTitle.Some? && currentTitle.value != "" {
          sections := sections + [Section(currentTitle.value, currentContent)];
        }
        currentTitle, currentContent := Some(strippedLine), "";
      } else if currentTitle.Some? && currentTitle.value != "" {
        currentContent := currentContent + strippedLine + " ";
      }
    }
    assert lines[..|lines|] == lines;
    if currentTitle.Some? && currentTitle.value != "" {
      sections := sections + [Section(currentTitle.value, currentContent)];
    }
    DetectOneCharacterised(Kinds(lines));
  }

  lemma ScanStep(lines: seq<string>, i: nat)
    requires i < |lines|
    ensures Scan(Kinds(lines[..i + 1])) == ScanLine(Scan(Kinds(lines[..i])), Classify(lines[i]))
  {
    var ks := Kinds(lines[..i + 1]);
    var pre := Kinds(lines[..i]);
    assert ks[..i] == pre by {
      forall j | 0 <= j < i
        ensures ks[j] == pre[j]
      {
        assert lines[..i + 1][j] == lines[..i][j];
      }
    }
    assert ks[i] == Classify(lines[i]) by {
      assert lines[..i + 1][i] == lines[i];
    }
  }

  /** An independent account of the result: the titles of the header lines, in order ... */
  function HeaderTitles(kinds: seq<LineKind>): seq<string>
  {
    if kinds == [] then []
    else
      var last := kinds[|kinds| - 1];
      HeaderTitles(kinds[..|kinds| - 1]) + (if last.Header? then [last.title] else [])
  }

  /** ... and the body lines after the first header line, each followed by a space, in
      order. */
  function BodyText(kinds: seq<LineKind>): string
  {
    if kinds == [] then ""
    else
      var prefix := kinds[..|kinds| - 1];
      var last := kinds[|kinds| - 1];
      BodyText(prefix) + (if last.Body? && HeaderTitles(prefix) != [] then last.text + " " else "")
  }

  lemma KeywordLineNotEmpty(s: string)
    requires HasKeyword(s)
    ensures s != ""
  {
    var k :| 0 <= k < |SectionKeywords| && Contains(s, SectionKeywords[k]);
    ContainsLength(s, SectionKeywords[k]);
  }

  lemma TitlesSnoc(ss: seq<Section>, x: Section)
    ensures Titles(ss + [x]) == Titles(ss) + [x.title]
  {
  }

  lemma ContentsSnoc(ss: seq<Section>, x: Section)
    ensures Flatten(Contents(ss + [x])) == Flatten(Contents(ss)) + x.content
  {
    assert Contents(ss + [x]) == Contents(ss) + [x.content];
    FlattenSnoc(Contents(ss), x.content);
  }

  /** The sections are one per header line, titled by that stripped line, in line order;
      timestamp lines and lines before the first header line contribute nothing; every
      other line goes, stripped and followed by a space, to the section it follows.
      (Header titles are never empty, so a header always opens a saved section.) */
  lemma {:induction false} DetectOneCharacterised(kinds: seq<LineKind>)
    requires forall i :: 0 <= i < |kinds| ==> kinds[i].Header? ==> kinds[i].title != ""
    ensures Titled(Scan(kinds)) <==> HeaderTitles(kinds) != []
    ensures Titles(Emitted(Scan(kinds))) == HeaderTitles(kinds)
    ensures Flatten(Contents(Emitted(Scan(kinds)))) == BodyText(kinds)
    decreases |kinds|
  {
    if kinds != [] {
      var prefix := kinds[..|kinds| - 1];
      DetectOneCharacterised(prefix);
      var st := Scan(prefix);
      assert kinds == prefix + [kinds[|kinds| - 1]];
      ScanLineEmitted(st, kinds[|kinds| - 1]);
    }
  }

  /** What one line does to the emitted sections: a header line adds an empty section
      with its title; a body line after a header grows the last section's content. */
  lemma ScanLineEmitted(st: HeaderScan, kind: LineKind)
    requires kind.Header? ==> kind.title != ""
    ensures kind.Header? ==>
      && Titles(Emitted(ScanLine(st, kind))) == Titles(Emitted(st)) + [kind.title]
      && Flatten(Contents(Emitted(ScanLine(st, kind)))) == Flatten(Contents(Emitted(st)))
    ensures !kind.Header? ==> Titles(Emitted(ScanLine(st, kind))) == Titles(Emitted(st))
    ensures kind.Body? ==>
              Flatten(Contents(Emitted(ScanLine(st, kind)))) ==
              Flatten(Contents(Emitted(st))) + (if Titled(st) then kind.text + " " else "")
  {
    match kind
    case Timestamp =>
    case Header(t) => HeaderEmitted(st, t);
    case Body(text) => BodyEmitted(st, text);
  }

  lemma HeaderEmitted(st: HeaderScan, t: string)
    requires t != ""
    ensures Emitted(ScanLine(st, Header(t))) == Emitted(st) + [Section(t, "")]
    ensures Titles(Emitted(ScanLine(st, Header(t)))) == Titles(Emitted(st)) + [t]
    ensures Flatten(Contents(Emitted(ScanLine(st, Header(t))))) == Flatten(Contents(Emitted(st)))
  {
    var e := Emitted(st);
    assert Titles(e + [Section(t, "")]) == Titles(e) + [t];
    ContentsSnoc(e, Section(t, ""));
  }

  lemma BodyEmitted(st: HeaderScan, text: string)
    ensures Titles(Emitted(ScanLine(st, Body(text)))) == Titles(Emitted(st))
    ensures Flatten(Contents(Emitted(ScanLine(st, Body(text))))) ==
      Flatten(Contents(Emitted(st))) + (if Titled(st) then text + " " else "")
  {
    if Titled(st) {
      var open := Section(st.title.value, st.content);
      var grown := Section(st.title.value, st.content + text + " ");
      assert Emitted(st) == st.sections + [open];
      assert Emitted(ScanLine(st, Body(text))) == st.sections + [grown];
      ContentsSnoc(st.sections, open);
      ContentsSnoc(st.sections, grown);
      var f := Flatten(Contents(st.sections));
      assert f + (st.content + text + " ") == (f + st.content) + (text + " ");
      TitlesSnoc(st.sections, open);
      TitlesSnoc(st.sections, grown);
    } else {
      assert Flatten(Contents(Emitted(st))) + "" == Flatten(Contents(Emitted(st)));
    }
  }

  lemma {:induction false} HeaderTitlesFrom(kinds: seq<LineKind>)
    ensures forall i :: 0 <= i < |HeaderTitles(kinds)| ==>
              exists j :: 0 <= j < |kinds| && kinds[j] == Header(HeaderTitles(kinds)[i])
    decreases |kinds|
  {
    if kinds != [] {
      var prefix := kinds[..|kinds| - 1];
      var last := kinds[|kinds| - 1];
      HeaderTitlesFrom(prefix);
      var ts := HeaderTitles(kinds);
      assert ts == HeaderTitles(prefix) + (if last.Header? then [last.title] else []);
      forall i | 0 <= i < |ts|
        ensures exists j :: 0 <= j < |kinds| && kinds[j] == Header(ts[i])
      {
        if i < |HeaderTitles(prefix)| {
          assert ts[i] == HeaderTitles(prefix)[i];
          var j :| 0 <= j < |prefix| && prefix[j] == Header(HeaderTitles(prefix)[i]);
          assert kinds[j] == prefix[j];
        } else {
          assert kinds[|kinds| - 1] == Header(ts[i]);
        }
      }
    } else {
      assert HeaderTitles(kinds) == [];
    }
  }

  /** Every section title is one of the lines, stripped, non-empty, holding a keyword
      and no "-->". */
  lemma DetectOneTitles(lines: seq<string>)
    ensures forall t :: t in Titles(DetectOne(lines)) ==>
      t != "" && HasKeyword(t) && !Contains(t, "-->") && exists j :: 0 <= j < |lines| && t == Strip(lines[j])
  {
    var kinds := Kinds(lines);
    DetectOneCharacterised(kinds);
    HeaderTitlesFrom(kinds);
    forall t | t in Titles(DetectOne(lines))
      ensures t != "" && HasKeyword(t) && !Contains(t, "-->") && exists j :: 0 <= j < |lines| && t == Strip(lines[j])
    {
      var i :| 0 <= i < |HeaderTitles(kinds)| && HeaderTitles(kinds)[i] == t;
      var j :| 0 <= j < |kinds| && kinds[j] == Header(t);
      assert Classify(lines[j]) == Header(t);
    }
  }

  // ----- process_transcription -----

  /** The loop of process_transcription over the detected sections. */
  function SummarizeAll(sections: seq<Section>, tokenize: TextChunks.Tokenizer, model: Model): (r: seq<SectionSummary>)
    ensures |r| == |sections|
    ensures forall i :: 0 <= i < |sections| ==> r[i] == SummarizeSection(sections[i], tokenize, model)
  {
    seq(|sections|, i requires 0 <= i < |sections| => SummarizeSection(sections[i], tokenize, model))
  }

  /** The loop itself: one summarize_section call per section, appended in order. */
  method SummarizeEach(sections: seq<Section>, tokenize: TextChunks.Tokenizer, model: Model)
    returns (summarized: seq<SectionSummary>)
    ensures summarized == SummarizeAll(sections, tokenize, model)
  {
    summarized := [];
    for i := 0 to |sections|
      invariant summarized == SummarizeAll(sections[..i], tokenize, model)
    {
      SummarizeAllSnoc(sections, i, tokenize, model);
      summarized := summarized + [SummarizeSection(sections[i], tokenize, model)];
    }
    assert sections[..|sections|] == sections;
  }

  lemma SummarizeAllSnoc(sections: seq<Section>, i: nat, tokenize: TextChunks.Tokenizer, model: Model)
    requires i < |sections|
    ensures SummarizeAll(sections[..i + 1], tokenize, model)
            == SummarizeAll(sections[..i], tokenize, model) + [SummarizeSection(sections[i], tokenize, model)]
  {
    var a := SummarizeAll(sections[..i + 1], tokenize, model);
    var b := SummarizeAll(sections[..i], tokenize, model);
    forall j | 0 <= j < i ensures a[j] == b[j] {
      assert sections[..i + 1][j] == sections[..i][j];
    }
    SnocEqual(a, b, SummarizeSection(sections[i], tokenize, model));
  }

  lemma SnocEqual<T>(a: seq<T>, b: seq<T>, x: T)
    requires |a| == |b| + 1 && a[|b|] == x
    requires forall j :: 0 <= j < |b| ==> a[j] == b[j]
    ensures a == b + [x]
  {
  }

  /** process_transcription over the file's contents: with no section list, the
      two-stage summary of the whole text under the fixed "Video Summary" title (the
      sentinel alone for an empty file); with a section list (whose value is ignored),
      one report block per keyword section found in the file's lines. */
  function ProcessTranscription(content: string, sections: Option<seq<string>>,
                                tokenize: TextChunks.Tokenizer, model: Model): string
  {
    if sections.None? then WholeVideo(content, tokenize, model)
    else Report(SummarizeAll(DetectOne(Lines(content)), tokenize, model))
  }

  function WholeVideo(content: string, tokenize: TextChunks.Tokenizer, model: Model): string
  {
    if content == "" then NoContent
    else Block(SectionSummary("Video Summary", TwoStage(content, tokenize, model)))
  }

  /** The whole-video templates of process_transcription: the sentinel alone for an
      empty file, otherwise one "Video Summary" block around the two-stage summary. */
  lemma ProcessTranscriptionWhole(content: string, tokenize: TextChunks.Tokenizer, model: Model)
    ensures content == "" ==> ProcessTranscription(content, None, tokenize, model) == "No content to summarize."
    ensures content != "" ==>
              ProcessTranscription(content, None, tokenize, model)
              == "Section: Video Summary\nSummary: " + TwoStage(content, tokenize, model)
  {
    assert ProcessTranscription(content, None, tokenize, model) == WholeVideo(content, tokenize, model);
    if content != "" {
      var x := TwoStage(content, tokenize, model);
      assert WholeVideo(content, tokenize, model) == "Section: " + "Video Summary" + "\nSummary: " + x;
      VideoHeader(x);
    }
  }

  lemma VideoHeader(x: string)
    ensures "Section: " + "Video Summary" + "\nSummary: " + x == "Section: Video Summary\nSummary: " + x
  {
    var header := "Section: " + "Video Summary" + "\nSummary: ";
    assert header == "Section: Video Summary\nSummary: " by {
      assert |header| == |"Section: Video Summary\nSummary: "|;
    }
  }

  /** With a section list, the report has one block per header line of the file, in
      line order, and is "" exactly when the file has no header line. */
  lemma {:induction false} ProcessTranscriptionSections(content: string, given: seq<string>,
                                     tokenize: TextChunks.Tokenizer, model: Model)
    ensures var found := DetectOne(Lines(content));
      && Titles(found) == HeaderTitles(Kinds(Lines(content)))
      && ProcessTranscription(content, Some(given), tokenize, model) == Report(SummarizeAll(found, tokenize, model))
      && (ProcessTranscription(content, Some(given), tokenize, model) == "" <==> HeaderTitles(Kinds(Lines(content))) == [])
  {
    var kinds := Kinds(Lines(content));
    DetectOneCharacterised(kinds);
    var found := DetectOne(Lines(content));
    var ss := SummarizeAll(found, tokenize, model);
    ReportEmptyIff(ss);
    assert |ss| == |Titles(found)|;
  }
}
