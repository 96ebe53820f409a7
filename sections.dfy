/**
  The section records shared by summarize.py and summarize_sections.py and the report
  both of them render: one "Section: {title}\nSummary: {summary}" block per section,
  blocks separated by a blank line.
*/
module Sections {
  import opened Strings

  /** A {"title", "content"} section record. */
  datatype Section = Section(title: string, content: string)

  /** A {"title", "summary"} record, one per summarised section. */
  datatype SectionSummary = SectionSummary(title: string, summary: string)

  function Titles(ss: seq<Section>): (ts: seq<string>)
    ensures |ts| == |ss| && forall i :: 0 <= i < |ss| ==> ts[i] == ss[i].title
  {
    seq(|ss|, i requires 0 <= i < |ss| => ss[i].title)
  }

  function Contents(ss: seq<Section>): (cs: seq<string>)
    ensures |cs| == |ss| && forall i :: 0 <= i < |ss| ==> cs[i] == ss[i].content
  {
    seq(|ss|, i requires 0 <= i < |ss| => ss[i].content)
  }

  /** Appending to one section's content keeps every title and changes that content
      only. */
  lemma AppendContent(ss: seq<Section>, c: nat, extra: string)
    requires c < |ss|
    ensures Titles(ss[c := Section(ss[c].title, ss[c].content + extra)]) == Titles(ss)
    ensures Contents(ss[c := Section(ss[c].title, ss[c].content + extra)]) ==
              Contents(ss)[c := Contents(ss)[c] + extra]
  {
  }

  /** f"Section: {title}\nSummary: {summary}" */
  function Block(s: SectionSummary): string
  {
    "Section: " + s.title + "\nSummary: " + s.summary
  }

  function Blocks(ss: seq<SectionSummary>): (bs: seq<string>)
    ensures |bs| == |ss| && forall i :: 0 <= i < |ss| ==> bs[i] == Block(ss[i])
  {
    seq(|ss|, i requires 0 <= i < |ss| => Block(ss[i]))
  }

  /** "\n\n".join of the blocks, in section order. */
  function Report(ss: seq<SectionSummary>): string
  {
    Join(Blocks(ss), "\n\n")
  }

  /** The report of a single section is its block alone; the report of more sections is
      the report of all but the last, a blank line, and the last block. */
  lemma ReportSnoc(ss: seq<SectionSummary>, s: SectionSummary)
    ensures Report(ss + [s]) ==
      if ss == [] then "Section: " + s.title + "\nSummary: " + s.summary
      else Report(ss) + "\n\n" + "Section: " + s.title + "\nSummary: " + s.summary
  {
    assert Blocks(ss + [s]) == Blocks(ss) + [Block(s)];
    JoinSnoc(Blocks(ss), Block(s), "\n\n");
    assert ss == [] ==> Blocks(ss) == [];
  }

  /** Reports compose: the report of two non-empty runs of sections is their reports
      separated by a blank line. */
  lemma ReportAppend(a: seq<SectionSummary>, b: seq<SectionSummary>)
    requires a != [] && b != []
    ensures Report(a + b) == Report(a) + "\n\n" + Report(b)
  {
    assert Blocks(a + b) == Blocks(a) + Blocks(b);
    JoinAppend(Blocks(a), Blocks(b), "\n\n");
  }

  /** The report is empty exactly when there are no sections: every block holds its
      "Section: " header. */
  lemma ReportEmptyIff(ss: seq<SectionSummary>)
    ensures Report(ss) == "" <==> ss == []
  {
    if ss != [] {
      var init := ss[..|ss| - 1];
      var last := ss[|ss| - 1];
      assert ss == init + [last];
      ReportSnoc(init, last);
    }
  }
}
