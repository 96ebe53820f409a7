/**
  summarize_full.py: the whole-video summariser.  Unlike summarize.py it sends every
  chunk to the model as it is (no strip, no skip, no 1024-word cut), chunks with the
  non-truncating chunker of text_chunks.py, and tests the collapse on character length.
*/
module SummarizeFull {
  import opened Wrappers
  import opened Strings
  import opened Bart
  import TextChunks

  /** The keyword arguments of get_summary_bart: max_length 124, min_length 30,
      do_sample False, and neither truncation nor a repetition penalty. */
  const FullParams: Params := Params(124, 30, false, None, None)

  /** The budgets and the character threshold of summarize_whole. */
  const WholeBudget: nat := 4000
  const CollapseLength: nat := 5000
  const CollapseBudget: nat := 1000

  /** The template both report lines of summarize_whole start with. */
  const VideoHeader: string := "Section: Video Summary\nSummary: "

  function Words(s: string): nat { |Split(s)| }

  // ----- get_summary_bart -----

  /** What get_summary_bart returns: the summaries of the calls that succeeded, one
      call per chunk, in chunk order, joined by single spaces. */
  function FullSummary(chunks: seq<string>, model: Model): string
  {
    Join(Successes(model, FullParams, chunks), " ")
  }

  method GetSummaryBart(chunks: seq<string>, model: Model) returns (r: string)
    ensures r == Join(Successes(model, FullParams, chunks), " ")
  {
    var summaries: seq<string> := [];
    for idx := 0 to |chunks|
      invariant summaries == Successes(model, FullParams, chunks[..idx])
    {
      assert chunks[..idx + 1][..idx] == chunks[..idx];
      var outcome := model(chunks[idx], FullParams);
      if outcome.Ok? {
        summaries := summaries + [outcome.summary];
      }
    }
    assert chunks[..|chunks|] == chunks;
    r := Join(summaries, " ");
  }

  /** Every chunk, blank or not, is sent to the model exactly once and in its place:
      the successes are those of the chunks before it, its own outcome, and those of the
      chunks after it. */
  lemma {:induction false} ChunkContribution(chunks: seq<string>, model: Model, i: nat)
    requires i < |chunks|
    ensures Successes(model, FullParams, chunks) ==
      Successes(model, FullParams, chunks[..i]) + Kept(model(chunks[i], FullParams))
      + Successes(model, FullParams, chunks[i + 1..])
  {
    assert chunks == chunks[..i] + [chunks[i]] + chunks[i + 1..];
    SuccessesAppend(model, FullParams, chunks[..i] + [chunks[i]], chunks[i + 1..]);
    SuccessesAppend(model, FullParams, chunks[..i], [chunks[i]]);
    assert [chunks[i]][..0] == [];
  }

  /** Failed calls are left out: when every call fails, or there are no chunks, the
      result is ""; when every call succeeds it is all the summaries in order. */
  lemma {:induction false} FullSummaryOutcomes(chunks: seq<string>, model: Model)
    ensures (forall i :: 0 <= i < |chunks| ==> model(chunks[i], FullParams).Err?) ==>
              FullSummary(chunks, model) == ""
    ensures AllOk(model, FullParams, chunks) ==>
              && |Successes(model, FullParams, chunks)| == |chunks|
              && FullSummary(chunks, model) == Join(Successes(model, FullParams, chunks), " ")
              && forall i :: 0 <= i < |chunks| ==>
                   Successes(model, FullParams, chunks)[i] == model(chunks[i], FullParams).summary
  {
    if forall i :: 0 <= i < |chunks| ==> model(chunks[i], FullParams).Err? {
      SuccessesWhenAllFail(model, FullParams, chunks);
    }
    if AllOk(model, FullParams, chunks) {
      SuccessesWhenAllOk(model, FullParams, chunks);
    }
  }

  /** An empty chunk is not skipped: when the model accepts "", its summary is the
      result. */
  lemma EmptyChunkSent(model: Model)
    requires model("", FullParams).Ok?
    ensures FullSummary([""], model) == model("", FullParams).summary
  {
    assert [""][..0] == [];
  }

  // ----- recursive_summarization -----

  /** recursive_summarization: the input when it has at most maxTokens words, otherwise
      one pass of the non-truncating chunker and get_summary_bart. */
  function RecursiveSummarization(summary: string, maxTokens: nat, tokenize: TextChunks.Tokenizer,
                                  model: Model): string
  {
    if Words(summary) <= maxTokens then summary
    else FullSummary(TextChunks.Chunks(summary, maxTokens, tokenize), model)
  }

  /** The identity fast path; otherwise a single pass whose model inputs are exactly the
      chunks, which re-tile the summary's sentences; a failing tokenizer makes it "". */
  lemma RecursiveSummarizationPass(summary: string, maxTokens: nat, tokenize: TextChunks.Tokenizer,
                                   model: Model)
    ensures Words(summary) <= maxTokens ==>
              RecursiveSummarization(summary, maxTokens, tokenize, model) == summary
    ensures Words(summary) > maxTokens ==>
              RecursiveSummarization(summary, maxTokens, tokenize, model)
              == Join(Successes(model, FullParams, TextChunks.Chunks(summary, maxTokens, tokenize)), " ")
    ensures Words(summary) > maxTokens && tokenize(summary).None? ==>
              RecursiveSummarization(summary, maxTokens, tokenize, model) == ""
    ensures Words(summary) > maxTokens && tokenize(summary).Some? &&
            (forall i :: 0 <= i < |tokenize(summary).value| ==> tokenize(summary).value[i] != "") ==>
              Join(TextChunks.NonEmpty(TextChunks.Chunks(summary, maxTokens, tokenize)), " ")
              == Join(tokenize(summary).value, " ")
  {
    if Words(summary) > maxTokens {
      assert summary != "" by {
        assert Split("") == [];
      }
      if tokenize(summary).Some? {
        if forall i :: 0 <= i < |tokenize(summary).value| ==> tokenize(summary).value[i] != "" {
          TextChunks.PackRetiles(tokenize(summary).value, maxTokens);
        }
      }
    }
  }

  // ----- summarize_whole -----

  /** summarize_whole over the transcript's contents.  An empty transcript gives the
      sentinel and no model call.  Otherwise the summary of the 4000-word chunks; when
      that summary is longer than 5000 characters, one more pass over its 1000-word
      chunks, whose header is then wrapped in the header again; summary files are not
      written. */
  method SummarizeWhole(longTranscript: string, tokenize: TextChunks.Tokenizer, model: Model)
    returns (r: string)
    ensures longTranscript == "" ==> r == NoContent
    ensures longTranscript != "" ==>
      var first := FullSummary(TextChunks.Chunks(longTranscript, WholeBudget, tokenize), model);
      && (|first| <= CollapseLength ==> r == VideoHeader + first)
      && (|first| > CollapseLength ==>
            r == VideoHeader + VideoHeader + FullSummary(TextChunks.Chunks(first, CollapseBudget, tokenize), model))
  {
    if longTranscript == "" {
      return NoContent;
    }
    var textChunks := TextChunks.SplitTextIntoChunks(longTranscript, WholeBudget, tokenize);
    var summary := GetSummaryBart(textChunks, model);
    if |summary| > CollapseLength {
      textChunks := TextChunks.SplitTextIntoChunks(summary, CollapseBudget, tokenize);
      var shortSummary := GetSummaryBart(textChunks, model);
      summary := VideoHeader + shortSummary;
    }
    r := VideoHeader + summary;
  }
}
