/**
  summarize_sections.py: the parsed transcript records are distributed over a given
  list of section titles by a single forward pass with a section cursor, each section
  is summarised with one model call, and the report joins one block per section.
*/
module SummarizeSections {
  import opened Wrappers
  import opened Strings
  import opened Bart
  import opened Sections
  import Transcribe
  import opened Cursors

  /** The keyword arguments of summarize_section. */
  const SectionParams: Params := Params(130, 30, false, None, None)

  const ErrorPrefix: string := "Error summarizing section: "

  /** `not text.strip()` (Strip's own contract makes the two readings equal). */
  predicate Blank(s: string) { AllSpace(s) }

  // ----- summarize_section -----

  /** summarize_section: the title passes through; an empty content gives the sentinel
      without a model call; otherwise the model's summary of the content as it is, or
      the error message when the call raises. */
  function SummarizeSection(section: Section, model: Model): (r: SectionSummary)
    ensures r.title == section.title
    ensures section.content == "" ==> r.summary == NoContent
    ensures section.content != "" ==>
      match model(section.content, SectionParams)
      case Ok(t) => r.summary == t
      case Err(e) => r.summary == ErrorPrefix + e
  {
    var content := section.content;
    if content == "" then SectionSummary(section.title, NoContent)
    else match model(content, SectionParams)
      case Ok(summary) => SectionSummary(section.title, summary)
      case Err(e) => SectionSummary(section.title, ErrorPrefix + e)
  }

  /** The model is consulted once, at the content itself and only when it is not empty:
      an empty content gives the same record for every model, and two models that agree
      on the content give the same record. */
  lemma SummarizeSectionModelUse(section: Section, m1: Model, m2: Model)
    ensures section.content == "" ==> SummarizeSection(section, m1) == SummarizeSection(section, m2)
    ensures m1(section.content, SectionParams) == m2(section.content, SectionParams) ==>
              SummarizeSection(section, m1) == SummarizeSection(section, m2)
  {
  }

  // ----- sort_text_to_section_headers -----

  function Texts(chunks: seq<Transcribe.TranscriptChunk>): (ts: seq<string>)
    ensures |ts| == |chunks| && forall i :: 0 <= i < |chunks| ==> ts[i] == chunks[i].text
  {
    seq(|chunks|, i requires 0 <= i < |chunks| => chunks[i].text)
  }

  /** The test of the loop: the text is not blank and, stripped and lower-cased, contains
      the next title, lower-cased. */
  predicate Signals(text: string, next: string)
  {
    !Blank(text) && Contains(Lower(Strip(text)), Lower(next))
  }

  /** Which cursor positions a text moves on from: position c when it signals title
      c + 1.  The last title has no next one. */
  function Marks(text: string, titles: seq<string>): (row: seq<bool>)
    ensures titles != [] ==> |row| == |titles| - 1
    ensures titles == [] ==> row == []
  {
    if titles == [] then []
    else seq(|titles| - 1, c requires 0 <= c < |titles| - 1 => Signals(text, titles[c + 1]))
  }

  function Table(texts: seq<string>, titles: seq<string>): (table: seq<seq<bool>>)
    ensures |table| == |texts| && forall i :: 0 <= i < |texts| ==> table[i] == Marks(texts[i], titles)
  {
    seq(|texts|, i requires 0 <= i < |texts| => Marks(texts[i], titles))
  }

  lemma TableTake(texts: seq<string>, titles: seq<string>, k: nat)
    requires k <= |texts|
    ensures Table(texts[..k], titles) == Table(texts, titles)[..k]
  {
  }

  lemma TableRows(texts: seq<string>, titles: seq<string>)
    requires titles != []
    ensures Rows(Table(texts, titles), |titles|)
  {
  }

  /** `current_section_index` after the given texts. */
  function Cursor(texts: seq<string>, titles: seq<string>): nat
  {
    Walk(Table(texts, titles))
  }

  /** What a text adds to its section: its stripped text and a space, nothing when it is
      blank. */
  function Piece(text: string): (p: string)
    ensures p == "" <==> Blank(text)
  {
    if Blank(text) then "" else Strip(text) + " "
  }

  function Pieces(texts: seq<string>): (ps: seq<string>)
    ensures |ps| == |texts| && forall i :: 0 <= i < |texts| ==> ps[i] == Piece(texts[i])
  {
    seq(|texts|, i requires 0 <= i < |texts| => Piece(texts[i]))
  }

  /** The loop can run: `sorted_sections[0]` is only indexed when there is a title. */
  predicate Assignable(texts: seq<string>, titles: seq<string>)
  {
    titles != [] || forall i :: 0 <= i < |texts| ==> Blank(texts[i])
  }

  /** The contents of the sections after the given texts: every section starts empty,
      and each text's piece is appended to the section under the cursor after it. */
  function Assigned(texts: seq<string>, titles: seq<string>): (cs: seq<string>)
    ensures |cs| == |titles|
  {
    if titles == [] then []
    else
      TableRows(texts, titles);
      Distribute(Table(texts, titles), Pieces(texts), |titles|)
  }

  function Sorted(texts: seq<string>, titles: seq<string>): (ss: seq<Section>)
    ensures |ss| == |titles|
  {
    var cs := Assigned(texts, titles);
    seq(|titles|, i requires 0 <= i < |titles| => Section(titles[i], cs[i]))
  }

  method SortTextToSectionHeaders(transcriptionChunks: seq<Transcribe.TranscriptChunk>, sectionTitles: seq<string>)
    returns (sortedSections: seq<Section>)
    requires Assignable(Texts(transcriptionChunks), sectionTitles)
    ensures Titles(sortedSections) == sectionTitles
    ensures Contents(sortedSections) == Assigned(Texts(transcriptionChunks), sectionTitles)
  {
    ghost var texts := Texts(transcriptionChunks);
    sortedSections := seq(|sectionTitles|, i requires 0 <= i < |sectionTitles| => Section(sectionTitles[i], ""));
    AssignedNone(sectionTitles);
    assert texts[..0] == [];
    var currentSectionIndex: nat := 0;
    for i := 0 to |transcriptionChunks|
      invariant currentSectionIndex == Cursor(texts[..i], sectionTitles)
      invariant Titles(sortedSections) == sectionTitles
      invariant Contents(sortedSections) == Assigned(texts[..i], sectionTitles)
    {
      SortIteration(texts, sectionTitles, i);
      var text := Strip(transcriptionChunks[i].text);
      if text == "" {
        continue;
      }
      if currentSectionIndex < |sectionTitles| - 1 {
        var nextSectionMarker := Lower(sectionTitles[currentSectionIndex + 1]);
        if Contains(Lower(text), nextSectionMarker) {
          currentSectionIndex := currentSectionIndex + 1;
        }
      }
      var section := sortedSections[currentSectionIndex];
      AppendContent(sortedSections, currentSectionIndex, text + " ");
      sortedSections := sortedSections[currentSectionIndex := Section(section.title, section.content + (text + " "))];
    }
    assert texts[..|transcriptionChunks|] == texts;
  }

  /** Before any text every section is empty. */
  lemma AssignedNone(titles: seq<string>)
    ensures Assigned([], titles) == seq(|titles|, j => "")
  {
  }

  /** One iteration of the loop, written as the loop computes it. */
  lemma SortIteration(texts: seq<string>, titles: seq<string>, i: nat)
    requires i < |texts| && Assignable(texts, titles)
    ensures var c := Cursor(texts[..i], titles);
      var text := Strip(texts[i]);
      && (text != "" ==> titles != [])
      && Cursor(texts[..i + 1], titles) ==
           (if text == "" then c
            else if c < |titles| - 1 && Contains(Lower(text), Lower(titles[c + 1])) then c + 1
            else c)
      && (titles != [] ==> Cursor(texts[..i + 1], titles) < |titles|)
      && var prev := Assigned(texts[..i], titles);
         var c' := Cursor(texts[..i + 1], titles);
         Assigned(texts[..i + 1], titles) ==
           if text == "" then prev else prev[c' := prev[c'] + (text + " ")]
  {
    CursorStep(texts, titles, i);
    var c := Cursor(texts[..i], titles);
    if c + 1 < |titles| {
      SignalsTest(texts[i], titles[c + 1]);
    }
    AssignedStep(texts, titles, i);
  }

  /** The test of the loop, as Signals states it. */
  lemma SignalsTest(text: string, next: string)
    ensures Signals(text, next) <==> Strip(text) != "" && Contains(Lower(Strip(text)), Lower(next))
  {
  }

  /** One text of the pass: its piece, unless empty, is appended to the section under the
      cursor after it. */
  lemma AssignedStep(texts: seq<string>, titles: seq<string>, i: nat)
    requires i < |texts|
    ensures titles != [] ==>
      && Cursor(texts[..i + 1], titles) < |titles|
      && var prev := Assigned(texts[..i], titles);
         var c := Cursor(texts[..i + 1], titles);
         Assigned(texts[..i + 1], titles) ==
           if Piece(texts[i]) == "" then prev else prev[c := prev[c] + Piece(texts[i])]
  {
    if titles != [] {
      var table := Table(texts, titles);
      var pieces := Pieces(texts);
      TableTake(texts, titles, i);
      TableTake(texts, titles, i + 1);
      assert Pieces(texts[..i]) == pieces[..i] && Pieces(texts[..i + 1]) == pieces[..i + 1];
      TableRows(texts, titles);
      DistributeStep(table, pieces, |titles|, i);
    }
  }

  /** The cursor never moves back, moves on by at most one per text, and moves on exactly
      when the text is not blank, there is a next title, and the stripped text contains
      that title, case-insensitively. */
  lemma CursorStep(texts: seq<string>, titles: seq<string>, i: nat)
    requires i < |texts|
    ensures var c := Cursor(texts[..i], titles);
      && (Cursor(texts[..i + 1], titles) == c || Cursor(texts[..i + 1], titles) == c + 1)
      && (Cursor(texts[..i + 1], titles) == c + 1 <==>
            c + 1 < |titles| && Signals(texts[i], titles[c + 1]))
  {
    var table := Table(texts, titles);
    TableTake(texts, titles, i);
    TableTake(texts, titles, i + 1);
    assert Cursor(texts[..i], titles) == Walk(table[..i]);
    assert Cursor(texts[..i + 1], titles) == Walk(table[..i + 1]);
    WalkStep(table, i);
    var c := Walk(table[..i]);
    assert table[i] == Marks(texts[i], titles);
    MarksAt(texts[i], titles, c);
  }

  /** The row of a text, at one cursor position. */
  lemma MarksAt(text: string, titles: seq<string>, c: nat)
    ensures c < |Marks(text, titles)| && Marks(text, titles)[c] <==> c + 1 < |titles| && Signals(text, titles[c + 1])
  {
    if c + 1 < |titles| {
      var row := Marks(text, titles);
      assert row[c] == Signals(text, titles[c + 1]);
    }
  }

  /** Over any stretch of texts the cursor never moves back, rises by at most one per
      text, and stays on a title. */
  lemma CursorMonotone(texts: seq<string>, titles: seq<string>, i: nat, j: nat)
    requires i <= j <= |texts|
    ensures Cursor(texts[..i], titles) <= Cursor(texts[..j], titles) <= Cursor(texts[..i], titles) + (j - i)
    ensures titles != [] ==> Cursor(texts[..j], titles) < |titles|
  {
    TableTake(texts, titles, i);
    TableTake(texts, titles, j);
    WalkMonotone(Table(texts, titles), i, j);
    if titles != [] {
      TableRows(texts[..j], titles);
      WalkBound(Table(texts[..j], titles), |titles|);
    }
  }

  /** Each section's content is exactly the pieces routed to it: every non-blank text goes
      to one section, the one under the cursor after it, in text order. */
  lemma {:induction false} AssignedRouted(texts: seq<string>, titles: seq<string>, j: nat)
    requires j < |titles|
    ensures Assigned(texts, titles)[j] == RoutedTo(Table(texts, titles), Pieces(texts), j)
  {
    TableRows(texts, titles);
    DistributeRouted(Table(texts, titles), Pieces(texts), |titles|, j);
  }

  /** Nothing is lost and order is kept: the sections' contents, in section order, are the
      stripped non-blank texts, each followed by a space, in text order. */
  lemma AssignedTiles(texts: seq<string>, titles: seq<string>)
    requires Assignable(texts, titles)
    ensures Flatten(Assigned(texts, titles)) == Flatten(Pieces(texts))
  {
    if titles == [] {
      FlattenEmpties(Pieces(texts));
    } else {
      TableRows(texts, titles);
      DistributeTiles(Table(texts, titles), Pieces(texts), |titles|);
    }
  }

  /** Every section starts empty; the sections are the titles, in order. */
  lemma SortedShape(texts: seq<string>, titles: seq<string>)
    ensures Titles(Sorted(texts, titles)) == titles
    ensures Contents(Sorted(texts, titles)) == Assigned(texts, titles)
    ensures forall j :: 0 <= j < |titles| ==> Assigned([], titles)[j] == ""
  {
  }

  // ----- process_transcription -----

  function SummarizeAll(sections: seq<Section>, model: Model): (r: seq<SectionSummary>)
    ensures |r| == |sections|
    ensures forall i :: 0 <= i < |sections| ==> r[i] == SummarizeSection(sections[i], model)
  {
    seq(|sections|, i requires 0 <= i < |sections| => SummarizeSection(sections[i], model))
  }

  /** process_transcription: one report block per title, in title order. */
  function ProcessTranscription(chunks: seq<Transcribe.TranscriptChunk>, titles: seq<string>, model: Model): string
    requires Assignable(Texts(chunks), titles)
  {
    Report(SummarizeAll(Sorted(Texts(chunks), titles), model))
  }

  /** The report has a block per title in title order, each holding the title and the
      summary of that section's assigned content, and is "" exactly when there are no
      titles. */
  lemma ProcessTranscriptionReport(chunks: seq<Transcribe.TranscriptChunk>, titles: seq<string>, model: Model)
    requires Assignable(Texts(chunks), titles)
    ensures var ss := SummarizeAll(Sorted(Texts(chunks), titles), model);
      && |ss| == |titles|
      && (forall i :: 0 <= i < |titles| ==>
            ss[i] == SummarizeSection(Section(titles[i], Assigned(Texts(chunks), titles)[i]), model))
      && ProcessTranscription(chunks, titles, model) == Report(ss)
      && (ProcessTranscription(chunks, titles, model) == "" <==> titles == [])
  {
    ReportEmptyIff(SummarizeAll(Sorted(Texts(chunks), titles), model));
  }
}
