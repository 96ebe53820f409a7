/**
  transcribe.py: the SubRip-style text that generate_subtitle_file writes, and the
  parser split_transcription, which runs re.findall with the pattern
      (\d+)\s+([\d:,]+) --> ([\d:,]+)\s+(.*?)(?=\n\d+\s+[\d:,]+ -->|\Z)
  under re.DOTALL and normalises each match into a chunk record.

  The matcher below is this one pattern, not a general regex engine.  Every greedy
  run in the pattern is followed by something its own class cannot match, so only
  its longest run can lead to a match and backtracking never picks a shorter one;
  the last \s+ is followed by a lazy group that always succeeds (the lookahead holds
  at the end of the string), so the longest run is kept there too; and the lazy text
  is the shortest prefix after which the lookahead holds.  The pattern never looks
  behind the position where it starts, so findall can be stated on suffixes.
*/
module Transcribe {
  import opened Wrappers
  import opened Strings

  // ----- generate_subtitle_file: the text it builds -----

  /** One transcription segment, its times already formatted by format_time. */
  datatype Segment = Segment(start: string, end: string, text: string)

  /** The block written for the segment numbered `number` (index + 1). */
  function Block(number: nat, seg: Segment): string
  {
    DecimalString(number) + " \n" + seg.start + " --> " + seg.end + " \n" + seg.text + " \n" + "\n"
  }

  /** The blocks of the segments, numbered from `first` on, in segment order. */
  function Blocks(segs: seq<Segment>, first: nat): (bs: seq<string>)
    ensures |bs| == |segs| && forall i :: 0 <= i < |segs| ==> bs[i] == Block(first + i, segs[i])
  {
    seq(|segs|, i requires 0 <= i < |segs| => Block(first + i, segs[i]))
  }

  /** The whole subtitle text, blocks numbered from 1. */
  function Render(segs: seq<Segment>): string
  {
    Flatten(Blocks(segs, 1))
  }

  method GenerateSubtitleText(segments: seq<Segment>) returns (text: string)
    ensures text == Render(segments)
  {
    text := "";
    for index := 0 to |segments|
      invariant text == Flatten(Blocks(segments, 1)[..index])
    {
      var segment := segments[index];
      ghost var before := text;
      var number := DecimalString(index + 1);
      text := text + number + " \n";
      text := text + segment.start + " --> " + segment.end + " \n";
      text := text + segment.text + " \n";
      text := text + "\n";
      assert text == before + Block(index + 1, segment);
      TakeSnoc(Blocks(segments, 1), index);
      FlattenSnoc(Blocks(segments, 1)[..index], Block(index + 1, segment));
    }
    assert Blocks(segments, 1)[..|segments|] == Blocks(segments, 1);
  }

  /** The first block comes first: the rendering from `first` is the block numbered
      `first` followed by the rest rendered from `first + 1`. */
  lemma RenderCons(segs: seq<Segment>, first: nat)
    requires segs != []
    ensures Flatten(Blocks(segs, first)) == Block(first, segs[0]) + Flatten(Blocks(segs[1..], first + 1))
  {
    assert Blocks(segs, first)[1..] == Blocks(segs[1..], first + 1);
  }

  /** Every segment's block appears in the rendered text, numbered by its position. */
  lemma RenderContainsBlocks(segs: seq<Segment>)
    ensures forall i :: 0 <= i < |segs| ==> Contains(Render(segs), Block(i + 1, segs[i]))
  {
    var bs := Blocks(segs, 1);
    forall i | 0 <= i < |segs| ensures Contains(Render(segs), Block(i + 1, segs[i])) {
      FlattenSplit(bs, i);
      var pre := Flatten(bs[..i]);
      var post := Flatten(bs[i + 1..]);
      assert Render(segs) == pre + bs[i] + post;
      assert (pre + bs[i] + post)[|pre|..|pre| + |bs[i]|] == bs[i];
      ContainsAt(Render(segs), bs[i], |pre|);
    }
  }

  lemma {:induction false} FlattenSplit<T>(xs: seq<seq<T>>, i: nat)
    requires i < |xs|
    ensures Flatten(xs) == Flatten(xs[..i]) + xs[i] + Flatten(xs[i + 1..])
  {
    assert xs == xs[..i] + [xs[i]] + xs[i + 1..];
    FlattenAppend(xs[..i] + [xs[i]], xs[i + 1..]);
    FlattenSnoc(xs[..i], xs[i]);
  }

  // ----- split_transcription: the matcher -----

  /** The character classes the pattern's runs are made of: `\d`, `\s`, `[\d:,]`,
      and any character but a newline. */
  datatype CharClass = Digits | Spaces | TimeChars | NonNewlines

  predicate InClass(c: char, k: CharClass)
  {
    match k
    case Digits => IsDigit(c)
    case Spaces => IsSpace(c)
    case TimeChars => IsTimeChar(c)
    case NonNewlines => c != '\n'
  }

  /** Every character of s is in class k (stated by recursion, so that the matcher's
      proofs do not carry quantifiers; AllOfIndexed gives the indexed reading). */
  predicate AllOf(s: string, k: CharClass)
    decreases |s|
  {
    s == [] || (InClass(s[0], k) && AllOf(s[1..], k))
  }

  lemma {:induction false} AllOfIndexed(s: string, k: CharClass)
    ensures AllOf(s, k) <==> forall i :: 0 <= i < |s| ==> InClass(s[i], k)
    decreases |s|
  {
    if s != [] {
      AllOfIndexed(s[1..], k);
      assert forall i :: 1 <= i < |s| ==> s[1..][i - 1] == s[i];
    }
  }

  /** The length of the longest prefix of s whose characters are in class k: how far
      a greedy `k+` or `k*` reaches. */
  function Run(s: string, k: CharClass): (n: nat)
    ensures n <= |s|
  {
    if s == [] || !InClass(s[0], k) then 0 else 1 + Run(s[1..], k)
  }

  /** The run is all k and is followed by a character outside k, or by the end. */
  lemma {:induction false} RunProperties(s: string, k: CharClass)
    ensures AllOf(s[..Run(s, k)], k)
    ensures Run(s, k) < |s| ==> !InClass(s[Run(s, k)], k)
    decreases |s|
  {
    if s != [] && InClass(s[0], k) {
      RunProperties(s[1..], k);
      assert s[..Run(s, k)][1..] == s[1..][..Run(s[1..], k)];
    }
  }

  /** The run of k over x + y when every character of x is in k and y does not
      start with one. */
  lemma {:induction false} RunExact(x: string, y: string, k: CharClass)
    requires AllOf(x, k)
    requires y == [] || !InClass(y[0], k)
    ensures Run(x + y, k) == |x|
    decreases |x|
  {
    if x == [] {
      assert x + y == y;
    } else {
      assert (x + y)[1..] == x[1..] + y;
      RunExact(x[1..], y, k);
    }
  }

  /** The class [\d:,]. */
  predicate IsTimeChar(c: char) { IsDigit(c) || c == ':' || c == ',' }

  /** A non-empty run of [\d:,]. */
  predicate IsTime(s: string) { s != [] && AllOf(s, TimeChars) }

  /** The first alternative of the lookahead, `\n\d+\s+[\d:,]+ -->`, at the start of s. */
  predicate HeadAt(s: string)
  {
    |s| > 0 && s[0] == '\n' &&
    var r1 := s[1..];
    var d := Run(r1, Digits);
    var r2 := r1[d..];
    var w := Run(r2, Spaces);
    var r3 := r2[w..];
    var t := Run(r3, TimeChars);
    d > 0 && w > 0 && t > 0 && StartsWith(r3[t..], " -->")
  }

  /** The lookahead `(?=\n\d+\s+[\d:,]+ -->|\Z)` at the start of s. */
  predicate Lookahead(s: string) { s == [] || HeadAt(s) }

  /** The length of the lazy group `(.*?)`: the first position from which the
      lookahead holds (see LazyLengthStops and LazyLengthShortest). */
  function LazyLength(s: string): (k: nat)
    ensures k <= |s|
  {
    if Lookahead(s) then 0 else 1 + LazyLength(s[1..])
  }

  /** The lazy group ends where the lookahead holds. */
  lemma {:induction false} LazyLengthStops(s: string)
    ensures Lookahead(s[LazyLength(s)..])
    decreases |s|
  {
    if !Lookahead(s) {
      LazyLengthStops(s[1..]);
      assert s[1..][LazyLength(s[1..])..] == s[LazyLength(s)..];
    }
  }

  /** The lazy group takes the shortest prefix: at no earlier position does the
      lookahead hold. */
  lemma {:induction false} LazyLengthShortest(s: string, j: nat)
    requires j < LazyLength(s)
    ensures !Lookahead(s[j..])
    decreases |s|
  {
    if j > 0 {
      LazyLengthShortest(s[1..], j - 1);
      assert s[1..][j - 1..] == s[j..];
    }
  }

  /** The four groups of one match, and how many characters it consumed. */
  datatype Match = Match(index: string, startTime: string, endTime: string, text: string, length: nat)

  /** What the groups of any match look like: \d+, [\d:,]+ and [\d:,]+. */
  predicate Shaped(m: Match)
  {
    m.index != [] && AllOf(m.index, Digits) && IsTime(m.startTime) && IsTime(m.endTime)
  }

  /** What the rest of the pattern matches after " --> ", if anything. */
  datatype Tail = NoTail | Tail(endTime: string, text: string, length: nat)

  /** The rest of the pattern after " --> ": `([\d:,]+)\s+(.*?)` up to the lookahead,
      giving the end time, the text and the number of characters consumed. */
  function TailAt(s: string): (r: Tail)
    ensures r.Tail? ==> 0 < r.length <= |s|
  {
    var t := Run(s, TimeChars);
    var r1 := s[t..];
    var w := Run(r1, Spaces);
    if t == 0 || w == 0 then NoTail
    else
      var r2 := r1[w..];
      var k := LazyLength(r2);
      Tail(s[..t], r2[..k], t + w + k)
  }

  /** The match of the pattern at the start of s, if there is one. */
  function MatchAt(s: string): (r: Option<Match>)
    ensures r.Some? ==> 0 < r.value.length <= |s|
  {
    var d := Run(s, Digits);
    var r1 := s[d..];
    var w := Run(r1, Spaces);
    var r2 := r1[w..];
    var t := Run(r2, TimeChars);
    var r3 := r2[t..];
    if d == 0 || w == 0 || t == 0 || !StartsWith(r3, " --> ") then None
    else match TailAt(r3[5..])
      case NoTail => None
      case Tail(endTime, text, n) =>
        Some(Match(s[..d], r2[..t], endTime, text, d + w + t + 5 + n))
  }

  /** The end time the tail of the pattern captures is a [\d:,]+ run. */
  lemma TailAtShaped(s: string)
    requires TailAt(s).Tail?
    ensures IsTime(TailAt(s).endTime)
  {
    RunProperties(s, TimeChars);
  }

  /** The groups of any match have the shape of the pattern's groups. */
  lemma MatchAtShaped(s: string)
    requires MatchAt(s).Some?
    ensures Shaped(MatchAt(s).value)
  {
    var d := Run(s, Digits);
    var r2 := s[d..][Run(s[d..], Spaces)..];
    var t := Run(r2, TimeChars);
    RunProperties(s, Digits);
    RunProperties(r2, TimeChars);
    TailAtShaped(r2[t..][5..]);
  }

  /** re.findall: the matches found scanning from the start, each search resuming where
      the previous match ended. */
  function FindAll(s: string): (ms: seq<Match>)
    decreases |s|
  {
    if s == [] then []
    else
      var r := MatchAt(s);
      if r.Some? then [r.value] + FindAll(s[r.value.length..]) else FindAll(s[1..])
  }

  /** Every match findall returns has the shape of the pattern's groups. */
  lemma {:induction false} FindAllShaped(s: string, i: nat)
    requires i < |FindAll(s)|
    ensures Shaped(FindAll(s)[i])
    decreases |s|
  {
    var r := MatchAt(s);
    if r.Some? {
      if i > 0 {
        FindAllShaped(s[r.value.length..], i - 1);
      } else {
        MatchAtShaped(s);
      }
    } else {
      FindAllShaped(s[1..], i);
    }
  }

  // ----- split_transcription: the records -----

  /** One {"index", "start_time", "end_time", "text"} record. */
  datatype TranscriptChunk = TranscriptChunk(index: nat, startTime: string, endTime: string, text: string)

  function Normalize(m: Match): TranscriptChunk
  {
    TranscriptChunk(DecimalValue(m.index), Strip(m.startTime), Strip(m.endTime),
                    ReplaceChar(Strip(m.text), '\n', ' '))
  }

  /** The records of the matches, in order. */
  function NormalizeAll(ms: seq<Match>): (cs: seq<TranscriptChunk>)
    ensures |cs| == |ms| && forall i :: 0 <= i < |ms| ==> cs[i] == Normalize(ms[i])
    decreases |ms|
  {
    if ms == [] then [] else NormalizeAll(ms[..|ms| - 1]) + [Normalize(ms[|ms| - 1])]
  }

  /** What split_transcription returns for the given text. */
  function Parse(content: string): seq<TranscriptChunk>
  {
    NormalizeAll(FindAll(content))
  }

  /** A normalised field: no newline and no whitespace at either end. */
  predicate IsCleanText(s: string)
  {
    (forall i :: 0 <= i < |s| ==> s[i] != '\n') && (s == "" || (!IsSpace(s[0]) && !IsSpace(s[|s| - 1])))
  }

  method SplitTranscription(transcriptionFile: string) returns (transcriptionChunks: seq<TranscriptChunk>)
    ensures transcriptionChunks == Parse(transcriptionFile)
  {
    var matches := FindAll(transcriptionFile);
    transcriptionChunks := [];
    for i := 0 to |matches|
      invariant transcriptionChunks == NormalizeAll(matches[..i])
    {
      NormalizeAllSnoc(matches, i);
      var m := matches[i];
      transcriptionChunks := transcriptionChunks + [
        TranscriptChunk(DecimalValue(m.index), Strip(m.startTime), Strip(m.endTime),
                        ReplaceChar(Strip(m.text), '\n', ' '))];
    }
    assert matches[..|matches|] == matches;
  }

  lemma NormalizeAllSnoc(ms: seq<Match>, i: nat)
    requires i < |ms|
    ensures NormalizeAll(ms[..i + 1]) == NormalizeAll(ms[..i]) + [Normalize(ms[i])]
  {
    TakeTake(ms, i, i + 1);
  }

  lemma StripTime(s: string)
    requires IsTime(s)
    ensures Strip(s) == s
  {
    AllOfIndexed(s, TimeChars);
    assert !IsSpace(s[0]) && !IsSpace(s[|s| - 1]);
    StripAppendSpaces(s, "");
    assert s + "" == s;
  }

  /** The record of one match: the integer value of its digits, its two times as
      matched, and its text stripped and on one line. */
  lemma NormalizeFields(m: Match)
    requires Shaped(m)
    ensures Normalize(m).index == DecimalValue(m.index)
    ensures Normalize(m).startTime == m.startTime && Normalize(m).endTime == m.endTime
    ensures IsTime(Normalize(m).startTime) && IsTime(Normalize(m).endTime)
    ensures IsCleanText(Normalize(m).text)
  {
    StripTime(m.startTime);
    StripTime(m.endTime);
  }

  /** Every parsed record has non-empty [\d:,] times and a clean text. */
  lemma ParsedFields(content: string)
    ensures forall i :: 0 <= i < |Parse(content)| ==>
      IsTime(Parse(content)[i].startTime) && IsTime(Parse(content)[i].endTime) && IsCleanText(Parse(content)[i].text)
  {
    var ms := FindAll(content);
    forall i | 0 <= i < |ms|
      ensures IsTime(Normalize(ms[i]).startTime) && IsTime(Normalize(ms[i]).endTime) && IsCleanText(Normalize(ms[i]).text)
    {
      FindAllShaped(content, i);
      NormalizeFields(ms[i]);
    }
  }

  /** Any match holds the " --> " of the pattern. */
  lemma {:induction false} MatchHasArrow(s: string)
    requires MatchAt(s).Some?
    ensures Contains(s, " --> ")
  {
    var d := Run(s, Digits);
    var w := Run(s[d..], Spaces);
    var t := Run(s[d..][w..], TimeChars);
    var k := d + w + t;
    assert s[d..][w..][t..] == s[k..];
    assert StartsWith(s[k..], " --> ");
    ContainsSuffix(s, k, " --> ");
  }

  /** Text without " --> " has no match at all. */
  lemma {:induction false} NoArrowNoChunks(s: string)
    requires !Contains(s, " --> ")
    ensures FindAll(s) == [] && Parse(s) == []
    decreases |s|
  {
    if s != [] {
      if MatchAt(s).Some? {
        MatchHasArrow(s);
      }
      NoArrowNoChunks(s[1..]);
    }
  }
}
