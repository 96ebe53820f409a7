/**
  header_detector.py: the parsed records are mapped onto a given list of section titles
  by a forward pass with a section cursor.  A record moves the cursor from title c to
  title c + 1 when some record of the whole list mentions title c + 1 (case-insensitive
  substring) and the record's own `index` field is at least the position of the first
  such record.  Each record's index is appended to the list of the title under the
  cursor.  The result is a dictionary keyed by title, so equal titles share one list.
*/
module HeaderDetector {
  import opened Strings
  import opened Cursors
  import opened Transcribe

  /** `marker in c["text"].lower()`. */
  predicate Mentions(chunk: TranscriptChunk, marker: string)
  {
    Contains(Lower(chunk.text), marker)
  }

  /** Which records mention the marker. */
  function Flags(chunks: seq<TranscriptChunk>, marker: string): (fs: seq<bool>)
    ensures |fs| == |chunks| && forall p :: 0 <= p < |chunks| ==> fs[p] == Mentions(chunks[p], marker)
  {
    seq(|chunks|, p requires 0 <= p < |chunks| => Mentions(chunks[p], marker))
  }

  /** The positions of the true flags, in order. */
  function TruePositions(fs: seq<bool>): seq<nat>
    decreases |fs|
  {
    if fs == [] then []
    else TruePositions(fs[..|fs| - 1]) + (if fs[|fs| - 1] then [|fs| - 1] else [])
  }

  lemma {:induction false} TruePositionsExact(fs: seq<bool>)
    ensures var ps := TruePositions(fs);
      && (forall j :: 0 <= j < |ps| ==> ps[j] < |fs| && fs[ps[j]])
      && (forall j, j' :: 0 <= j < j' < |ps| ==> ps[j] < ps[j'])
      && (forall p :: 0 <= p < |fs| && fs[p] ==> p in ps)
    decreases |fs|
  {
    if fs != [] {
      var init := fs[..|fs| - 1];
      TruePositionsExact(init);
      assert forall p :: 0 <= p < |init| ==> init[p] == fs[p];
    }
  }

  /** The comprehension `[i for i, c in enumerate(chunks) if marker in c["text"].lower()]`. */
  function Positions(chunks: seq<TranscriptChunk>, marker: string): seq<nat>
  {
    TruePositions(Flags(chunks, marker))
  }

  /** The positions of exactly the records that mention the marker, in increasing order. */
  lemma PositionsExact(chunks: seq<TranscriptChunk>, marker: string)
    ensures var ps := Positions(chunks, marker);
      && (forall j :: 0 <= j < |ps| ==> ps[j] < |chunks| && Mentions(chunks[ps[j]], marker))
      && (forall j, j' :: 0 <= j < j' < |ps| ==> ps[j] < ps[j'])
      && (forall p :: 0 <= p < |chunks| && Mentions(chunks[p], marker) ==> p in ps)
  {
    var fs := Flags(chunks, marker);
    var ps := Positions(chunks, marker);
    assert ps == TruePositions(fs);
    TruePositionsExact(fs);
    forall j | 0 <= j < |ps|
      ensures ps[j] < |chunks| && Mentions(chunks[ps[j]], marker)
    {
      var p := ps[j];
      assert TruePositions(fs)[j] == p;
      assert p < |fs|;
      assert fs[p];
    }
  }

  /** `next_section_start[0]` is the first mentioning position: there is none exactly when
      no record mentions the marker, and otherwise no record before it does. */
  lemma FirstMention(chunks: seq<TranscriptChunk>, marker: string)
    ensures Positions(chunks, marker) == [] <==> forall p :: 0 <= p < |chunks| ==> !Mentions(chunks[p], marker)
    ensures Positions(chunks, marker) != [] ==>
      var first := Positions(chunks, marker)[0];
      && first < |chunks| && Mentions(chunks[first], marker)
      && forall q :: 0 <= q < first ==> !Mentions(chunks[q], marker)
  {
    PositionsExact(chunks, marker);
  }

  /** The advance test of the loop, `next_section_start and idx >= next_section_start[0]`,
      for the mentioning positions of the next title. */
  predicate Advances(ps: seq<nat>, idx: nat)
  {
    ps != [] && idx >= ps[0]
  }

  /** The mentioning positions of every title, lower-cased. */
  function Starts(chunks: seq<TranscriptChunk>, sections: seq<string>): (starts: seq<seq<nat>>)
    ensures |starts| == |sections|
    ensures forall c :: 0 <= c < |sections| ==> starts[c] == Positions(chunks, Lower(sections[c]))
  {
    seq(|sections|, c requires 0 <= c < |sections| => Positions(chunks, Lower(sections[c])))
  }

  function Indices(chunks: seq<TranscriptChunk>): (ids: seq<nat>)
    ensures |ids| == |chunks| && forall k :: 0 <= k < |chunks| ==> ids[k] == chunks[k].index
  {
    seq(|chunks|, k requires 0 <= k < |chunks| => chunks[k].index)
  }

  /** Which cursor positions a record with this index moves on from, given the
      mentioning positions of every title. */
  function Row(starts: seq<seq<nat>>, idx: nat): (row: seq<bool>)
    ensures starts != [] ==> |row| == |starts| - 1
  {
    if starts == [] then []
    else seq(|starts| - 1, c requires 0 <= c < |starts| - 1 => Advances(starts[c + 1], idx))
  }

  lemma RowAt(starts: seq<seq<nat>>, idx: nat, c: nat)
    ensures c < |Row(starts, idx)| && Row(starts, idx)[c] <==> c + 1 < |starts| && Advances(starts[c + 1], idx)
  {
    if c + 1 < |starts| {
      var row := Row(starts, idx);
      assert row[c] == Advances(starts[c + 1], idx);
    }
  }

  function TableOf(starts: seq<seq<nat>>, idxs: seq<nat>): (table: seq<seq<bool>>)
    ensures |table| == |idxs| && forall k :: 0 <= k < |idxs| ==> table[k] == Row(starts, idxs[k])
  {
    seq(|idxs|, k requires 0 <= k < |idxs| => Row(starts, idxs[k]))
  }

  lemma TableOfRows(starts: seq<seq<nat>>, idxs: seq<nat>)
    requires starts != []
    ensures Rows(TableOf(starts, idxs), |starts|)
  {
  }

  /** One record of the pass over the rows: the cursor moves on exactly when there is a
      next title and the record's index passes that title's test. */
  lemma TableStep(starts: seq<seq<nat>>, idxs: seq<nat>, k: nat)
    requires k < |idxs|
    ensures var table := TableOf(starts, idxs);
      var c := Walk(table[..k]);
      Walk(table[..k + 1]) == if c + 1 < |starts| && Advances(starts[c + 1], idxs[k]) then c + 1 else c
    ensures starts != [] ==> Walk(TableOf(starts, idxs)[..k + 1]) < |starts|
  {
    var table := TableOf(starts, idxs);
    WalkStep(table, k);
    assert table[k] == Row(starts, idxs[k]);
    RowAt(starts, idxs[k], Walk(table[..k]));
    if starts != [] {
      TableOfRows(starts, idxs);
      RowsTake(table, |starts|, k + 1);
      WalkBound(table[..k + 1], |starts|);
    }
  }

  function Table(chunks: seq<TranscriptChunk>, sections: seq<string>): (table: seq<seq<bool>>)
    ensures |table| == |chunks|
  {
    TableOf(Starts(chunks, sections), Indices(chunks))
  }

  lemma TableRows(chunks: seq<TranscriptChunk>, sections: seq<string>)
    requires sections != []
    ensures Rows(Table(chunks, sections), |sections|)
  {
    TableOfRows(Starts(chunks, sections), Indices(chunks));
  }

  /** What a record contributes: its index. */
  function Pieces(chunks: seq<TranscriptChunk>): (ps: seq<seq<nat>>)
    ensures |ps| == |chunks| && forall k :: 0 <= k < |chunks| ==> ps[k] == [chunks[k].index]
  {
    seq(|chunks|, k requires 0 <= k < |chunks| => [chunks[k].index])
  }

  /** `current_section_idx` after the first k records. */
  function Cursor(chunks: seq<TranscriptChunk>, sections: seq<string>, k: nat): nat
    requires k <= |chunks|
  {
    Walk(Table(chunks, sections)[..k])
  }

  /** The list of a title: the indices of the records after which the cursor stands at a
      section with that title, in record order. */
  function Routed(chunks: seq<TranscriptChunk>, sections: seq<string>, title: string): seq<nat>
  {
    RoutedKey(Table(chunks, sections), Pieces(chunks), sections, title)
  }

  /** The loop can run: `sections[0]` is only looked up when there is a record. */
  predicate Mappable(chunks: seq<TranscriptChunk>, sections: seq<string>)
  {
    sections != [] || chunks == []
  }

  method DetectSectionHeadersWithSections(transcriptionChunks: seq<TranscriptChunk>, sections: seq<string>)
    returns (sectionMapping: map<string, seq<nat>>)
    requires Mappable(transcriptionChunks, sections)
    ensures sectionMapping.Keys == set t | t in sections
    ensures forall t :: t in sectionMapping ==> sectionMapping[t] == Routed(transcriptionChunks, sections, t)
  {
    ghost var table := Table(transcriptionChunks, sections);
    ghost var pieces := Pieces(transcriptionChunks);
    sectionMapping := map section | section in sections :: [];
    var currentSectionIdx: nat := 0;
    for k := 0 to |transcriptionChunks|
      invariant currentSectionIdx == Cursor(transcriptionChunks, sections, k)
      invariant sectionMapping.Keys == set t | t in sections
      invariant forall t :: t in sectionMapping ==> sectionMapping[t] == RoutedKey(table[..k], pieces[..k], sections, t)
    {
      var idx := transcriptionChunks[k].index;
      currentSectionIdx := AdvanceCursor(transcriptionChunks, sections, k, currentSectionIdx);
      RoutedStep(transcriptionChunks, sections, k);
      var key := sections[currentSectionIdx];
      sectionMapping := sectionMapping[key := sectionMapping[key] + [idx]];
    }
    assert table[..|transcriptionChunks|] == table && pieces[..|transcriptionChunks|] == pieces;
  }

  /** The head of the loop body: moves the cursor on when there is a next title and the
      record's index is at least the first position that mentions it. */
  method AdvanceCursor(transcriptionChunks: seq<TranscriptChunk>, sections: seq<string>, k: nat,
                       currentSectionIdx: nat)
    returns (nextSectionIdx: nat)
    requires k < |transcriptionChunks| && currentSectionIdx == Cursor(transcriptionChunks, sections, k)
    ensures nextSectionIdx == Cursor(transcriptionChunks, sections, k + 1)
  {
    CursorStep(transcriptionChunks, sections, k);
    var idx := transcriptionChunks[k].index;
    nextSectionIdx := currentSectionIdx;
    if currentSectionIdx < |sections| - 1 {
      var nextSectionStart := Positions(transcriptionChunks, Lower(sections[currentSectionIdx + 1]));
      if nextSectionStart != [] && idx >= nextSectionStart[0] {
        nextSectionIdx := currentSectionIdx + 1;
      }
    }
  }

  /** The rest of the loop body: the record's index goes to the list of the title under
      the cursor after it. */
  lemma {:induction false} RoutedStep(chunks: seq<TranscriptChunk>, sections: seq<string>, k: nat)
    requires k < |chunks| && Mappable(chunks, sections)
    ensures sections != [] && Cursor(chunks, sections, k + 1) < |sections|
    ensures forall t ::
      RoutedKey(Table(chunks, sections)[..k + 1], Pieces(chunks)[..k + 1], sections, t) ==
        RoutedKey(Table(chunks, sections)[..k], Pieces(chunks)[..k], sections, t)
        + (if sections[Cursor(chunks, sections, k + 1)] == t then [chunks[k].index] else [])
  {
    CursorMonotone(chunks, sections, k + 1, k + 1);
    forall t {
      RoutedKeyStep(Table(chunks, sections), Pieces(chunks), sections, t, k);
    }
  }

  /** detect_section_headers_without_sections is a stub: the empty mapping. */
  method DetectSectionHeadersWithoutSections(transcriptionChunks: seq<TranscriptChunk>)
    returns (sectionMapping: map<string, seq<nat>>)
    ensures sectionMapping == map[]
  {
    sectionMapping := map[];
  }

  /** detect_section_headers: no titles give the empty mapping; otherwise one list per
      distinct title, holding the indices routed to it. */
  method DetectSectionHeaders(transcriptionChunks: seq<TranscriptChunk>, sections: seq<string>)
    returns (sectionMapping: map<string, seq<nat>>)
    ensures sections == [] ==> sectionMapping == map[]
    ensures sections != [] ==>
      && sectionMapping.Keys == set t | t in sections
      && forall t :: t in sectionMapping ==> sectionMapping[t] == Routed(transcriptionChunks, sections, t)
  {
    if sections == [] {
      sectionMapping := DetectSectionHeadersWithoutSections(transcriptionChunks);
    } else {
      sectionMapping := DetectSectionHeadersWithSections(transcriptionChunks, sections);
    }
  }

  // ----- properties of the pass -----

  /** The cursor stays or moves on by one, and moves on exactly when there is a next
      title, some record mentions it, and this record's index is at least the first
      mentioning position. */
  lemma CursorStep(chunks: seq<TranscriptChunk>, sections: seq<string>, k: nat)
    requires k < |chunks|
    ensures var c := Cursor(chunks, sections, k);
      && (Cursor(chunks, sections, k + 1) == c || Cursor(chunks, sections, k + 1) == c + 1)
      && (Cursor(chunks, sections, k + 1) == c + 1 <==>
            c + 1 < |sections| && Advances(Positions(chunks, Lower(sections[c + 1])), chunks[k].index))
  {
    TableStep(Starts(chunks, sections), Indices(chunks), k);
  }

  /** Over any stretch of records the cursor never moves back, rises by at most one per
      record, and stays on a title. */
  lemma CursorMonotone(chunks: seq<TranscriptChunk>, sections: seq<string>, i: nat, j: nat)
    requires i <= j <= |chunks|
    ensures Cursor(chunks, sections, i) <= Cursor(chunks, sections, j) <= Cursor(chunks, sections, i) + (j - i)
    ensures sections != [] ==> Cursor(chunks, sections, j) < |sections|
  {
    var table := Table(chunks, sections);
    WalkMonotone(table, i, j);
    if sections != [] {
      TableRows(chunks, sections);
      RowsTake(table, |sections|, j);
      WalkBound(table[..j], |sections|);
    }
  }

  /** A record whose index is at least its position and that mentions the next title
      moves the cursor on to it. */
  lemma MentionAdvances(chunks: seq<TranscriptChunk>, sections: seq<string>, k: nat)
    requires k < |chunks| && chunks[k].index >= k
    requires var c := Cursor(chunks, sections, k);
      c + 1 < |sections| && Mentions(chunks[k], Lower(sections[c + 1]))
    ensures Cursor(chunks, sections, k + 1) == Cursor(chunks, sections, k) + 1
  {
    var c := Cursor(chunks, sections, k);
    var marker := Lower(sections[c + 1]);
    FirstMention(chunks, marker);
    CursorStep(chunks, sections, k);
  }

  /** The index field is the 1-based block number while the positions are 0-based, so
      with the numbering the subtitle writer produces the cursor moves on one record
      early: the record just before the first mention of the next title, which does not
      itself mention it, already goes to that title. */
  lemma EarlyAdvance(chunks: seq<TranscriptChunk>, sections: seq<string>, k: nat)
    requires forall q :: 0 <= q < |chunks| ==> chunks[q].index == q + 1
    requires k < |chunks|
    requires var c := Cursor(chunks, sections, k);
      && c + 1 < |sections|
      && Positions(chunks, Lower(sections[c + 1])) != []
      && Positions(chunks, Lower(sections[c + 1]))[0] == k + 1
    ensures var c := Cursor(chunks, sections, k);
      && !Mentions(chunks[k], Lower(sections[c + 1]))
      && Cursor(chunks, sections, k + 1) == c + 1
  {
    var c := Cursor(chunks, sections, k);
    FirstMention(chunks, Lower(sections[c + 1]));
    CursorStep(chunks, sections, k);
  }

  /** With distinct titles, a title's list is the indices routed to its position. */
  lemma {:induction false} RoutedDistinct(chunks: seq<TranscriptChunk>, sections: seq<string>, j: nat)
    requires Distinct(sections) && j < |sections|
    ensures Routed(chunks, sections, sections[j]) == RoutedTo(Table(chunks, sections), Pieces(chunks), j)
  {
    TableRows(chunks, sections);
    RoutedKeyDistinct(Table(chunks, sections), Pieces(chunks), sections, j);
  }

  lemma {:induction false} FlattenPieces(chunks: seq<TranscriptChunk>)
    ensures Flatten(Pieces(chunks)) == Indices(chunks)
    decreases |chunks|
  {
    if chunks != [] {
      FlattenPieces(chunks[1..]);
      assert Pieces(chunks)[1..] == Pieces(chunks[1..]);
      assert Indices(chunks) == [chunks[0].index] + Indices(chunks[1..]);
    }
  }

  /** With distinct titles every index lands in exactly one list and order is kept: the
      lists, in title order, concatenate to the records' indices in record order. */
  lemma MappingTiles(chunks: seq<TranscriptChunk>, sections: seq<string>)
    requires Distinct(sections) && sections != []
    ensures Flatten(seq(|sections|, j requires 0 <= j < |sections| => Routed(chunks, sections, sections[j])))
            == Indices(chunks)
  {
    var table := Table(chunks, sections);
    var pieces := Pieces(chunks);
    var n := |sections|;
    TableRows(chunks, sections);
    var lists := seq(n, j requires 0 <= j < n => Routed(chunks, sections, sections[j]));
    forall j | 0 <= j < n
      ensures lists[j] == Distribute(table, pieces, n)[j]
    {
      RoutedDistinct(chunks, sections, j);
      DistributeRouted(table, pieces, n, j);
    }
    assert lists == Distribute(table, pieces, n);
    DistributeTiles(table, pieces, n);
    FlattenPieces(chunks);
  }
}
