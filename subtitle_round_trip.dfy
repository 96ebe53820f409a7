/**
  The subtitle text generate_subtitle_file writes, read back by split_transcription:
  every block comes back as one chunk record carrying the block's number, its two
  times and its text stripped, provided the times are runs of [\d:,] (as format_time
  writes them) and the text is one line holding a non-space character.
*/
module SubtitleRoundTrip {
  import opened Wrappers
  import opened Strings
  import opened Transcribe

  /** A segment whose block reads back: times in [\d:,]+, a one-line text that is
      not blank. */
  predicate WellFormed(seg: Segment)
  {
    IsTime(seg.start) && IsTime(seg.end) && AllOf(seg.text, NonNewlines) && !AllSpace(seg.text)
  }

  /** What the lazy text group captures from a block: the text without its leading
      whitespace and the block's " \n", plus the closing "\n" for the last block. */
  function Capture(seg: Segment, last: bool): string
  {
    TrimLeft(seg.text) + (if last then " \n\n" else " \n")
  }

  /** A block followed by R, written as the pieces the pattern reads one by one. */
  lemma {:induction false} BlockPieces(k: nat, seg: Segment, R: string)
    ensures Block(k, seg) + R ==
      DecimalString(k) + (" \n" + (seg.start + (" --> " + (seg.end + (" \n" + (seg.text + (" \n\n" + R)))))))
  {
  }

  /** The `\s+` after the number takes exactly the " \n" before a time. */
  lemma {:induction false} NewlineRun(rest: string)
    requires rest != [] && IsTimeChar(rest[0])
    ensures Run(" \n" + rest, Spaces) == 2
  {
    var sp := " \n";
    assert AllOf(sp[1..][1..], Spaces);
    RunExact(sp, rest, Spaces);
  }

  /** `[\d:,]+` takes exactly a time followed by a space. */
  lemma {:induction false} TimeRun(t: string, rest: string)
    requires IsTime(t) && rest != [] && rest[0] == ' '
    ensures Run(t + rest, TimeChars) == |t|
  {
    RunExact(t, rest, TimeChars);
  }

  /** The lazy text group passes over characters that are not newlines: the
      lookahead starts with "\n". */
  lemma {:induction false} LazySkip(x: string, y: string)
    requires AllOf(x, NonNewlines)
    ensures LazyLength(x + y) == |x| + LazyLength(y)
    decreases |x|
  {
    if x == [] {
      assert x + y == y;
    } else {
      assert (x + y)[1..] == x[1..] + y;
      LazySkip(x[1..], y);
    }
  }

  /** Where the lazy text group stops at the end of a block: before the "\n" that
      starts the next block, or at the end of the text. */
  lemma {:induction false} LazyEnd(R: string)
    requires R == [] || HeadAt("\n" + R)
    ensures LazyLength("\n\n" + R) == if R == [] then 2 else 1
  {
    var s := "\n\n" + R;
    assert s[1..] == "\n" + R;
    assert Run(s[1..], Digits) == 0;
    if R == [] {
      assert s[1..][1..] == [];
    }
  }

  /** The leading whitespace of a one-line text that is not blank, and what is left
      after it: a non-empty one-line remainder that starts with a non-space. */
  lemma TextPieces(text: string) returns (lead: string, tl: string)
    requires AllOf(text, NonNewlines) && !AllSpace(text)
    ensures tl == TrimLeft(text) && text == lead + tl && AllSpace(lead)
    ensures tl != [] && !IsSpace(tl[0]) && AllOf(tl, NonNewlines)
  {
    tl := TrimLeft(text);
    lead := text[..|text| - |tl|];
    assert text == lead + tl;
    AllOfIndexed(text, NonNewlines);
    AllOfIndexed(tl, NonNewlines);
  }

  /** `\s+` after the end time takes the " \n" and the text's leading whitespace. */
  lemma {:induction false} GapRun(lead: string, z: string)
    requires AllSpace(lead) && z != [] && !IsSpace(z[0])
    ensures Run(" \n" + (lead + z), Spaces) == 2 + |lead|
  {
    AllOfIndexed(" \n" + lead, Spaces);
    RunExact(" \n" + lead, z, Spaces);
    assert (" \n" + lead) + z == " \n" + (lead + z);
  }

  lemma DropTwo(a: string, b: string, z: string)
    ensures (a + (b + z))[|a| + |b|..] == z
  {
  }

  /** The first |tl| + 2 or + 3 characters after the text's leading whitespace. */
  lemma CaptureSlice(tl: string, R: string)
    ensures (tl + (" " + ("\n\n" + R)))[..|tl| + 2] == tl + " \n"
    ensures (tl + (" " + ("\n\n" + R)))[..|tl| + 3] == tl + " \n\n" <== R == []
  {
  }

  /** How far the runs and the lazy group of the tail pattern reach over the tail of
      a block, given as its pieces: the end time e, the leading whitespace and the
      rest tl of the text, and what follows. */
  lemma {:induction false} TailRunsOfPieces(e: string, lead: string, tl: string, R: string)
    requires IsTime(e) && AllSpace(lead) && tl != [] && !IsSpace(tl[0]) && AllOf(tl, NonNewlines)
    requires LazyLength("\n\n" + R) == if R == [] then 2 else 1
    ensures var s := e + (" \n" + (lead + (tl + (" " + ("\n\n" + R)))));
      var k := |tl| + if R == [] then 3 else 2;
      |e| + 2 + |lead| <= |s| && Run(s, TimeChars) == |e| && s[..|e|] == e &&
      Run(s[|e|..], Spaces) == 2 + |lead| && LazyLength(s[|e|..][2 + |lead|..]) == k &&
      s[|e|..][2 + |lead|..][..k] == tl + (if R == [] then " \n\n" else " \n")
  {
    var z := tl + (" " + ("\n\n" + R));
    var r1 := " \n" + (lead + z);
    EndTimeRun(e, r1);
    GapRunDrop(lead, z);
    TextLazy(tl, R);
  }

  lemma {:induction false} EndTimeRun(e: string, r1: string)
    requires IsTime(e) && r1 != [] && r1[0] == ' '
    ensures Run(e + r1, TimeChars) == |e| && (e + r1)[..|e|] == e && (e + r1)[|e|..] == r1
  {
    TimeRun(e, r1);
  }

  lemma {:induction false} GapRunDrop(lead: string, z: string)
    requires AllSpace(lead) && z != [] && !IsSpace(z[0])
    ensures Run(" \n" + (lead + z), Spaces) == 2 + |lead| && (" \n" + (lead + z))[2 + |lead|..] == z
  {
    GapRun(lead, z);
    DropTwo(" \n", lead, z);
  }

  lemma {:induction false} TextLazy(tl: string, R: string)
    requires AllOf(tl, NonNewlines)
    requires LazyLength("\n\n" + R) == if R == [] then 2 else 1
    ensures var z := tl + (" " + ("\n\n" + R));
      var k := |tl| + if R == [] then 3 else 2;
      LazyLength(z) == k && z[..k] == tl + (if R == [] then " \n\n" else " \n")
  {
    LazySkip(tl, " " + ("\n\n" + R));
    assert AllOf(" "[1..], NonNewlines);
    LazySkip(" ", "\n\n" + R);
    CaptureSlice(tl, R);
  }

  /** The tail of the pattern over the tail of a block, given as its pieces. */
  lemma {:induction false} TailPieces(e: string, lead: string, tl: string, R: string)
    requires IsTime(e) && AllSpace(lead) && tl != [] && !IsSpace(tl[0]) && AllOf(tl, NonNewlines)
    requires LazyLength("\n\n" + R) == if R == [] then 2 else 1
    ensures var r := TailAt(e + (" \n" + (lead + (tl + (" " + ("\n\n" + R))))));
      r.Tail? && r.endTime == e && r.text == tl + (if R == [] then " \n\n" else " \n") &&
      r.length == |e| + |lead| + |tl| + if R == [] then 5 else 4
  {
    TailRunsOfPieces(e, lead, tl, R);
    TailAtRuns(e + (" \n" + (lead + (tl + (" " + ("\n\n" + R))))), |e|, 2 + |lead|, |tl| + if R == [] then 3 else 2);
  }

  /** TailAt in terms of how far its two greedy runs and its lazy group reach. */
  lemma {:induction false} TailAtRuns(s: string, t: nat, w: nat, k: nat)
    requires 0 < t <= |s| && Run(s, TimeChars) == t
    requires 0 < w <= |s| - t && Run(s[t..], Spaces) == w
    requires LazyLength(s[t..][w..]) == k
    ensures TailAt(s).Tail?
    ensures TailAt(s).endTime == s[..t] && TailAt(s).text == s[t..][w..][..k]
    ensures TailAt(s).length == t + w + k
  {
  }

  /** The tail of the pattern over the tail of a block: the end time, the captured
      text, and everything but the closing "\n" of a block that another follows. */
  lemma TailBlock(seg: Segment, R: string)
    requires WellFormed(seg)
    requires R == [] || HeadAt("\n" + R)
    ensures var r := TailAt(seg.end + (" \n" + (seg.text + (" \n\n" + R))));
      r.Tail? && r.endTime == seg.end && r.text == Capture(seg, R == []) &&
      r.length == |seg.end| + |seg.text| + if R == [] then 5 else 4
  {
    var lead, tl := TextPieces(seg.text);
    LazyEnd(R);
    TextTail(seg.end, lead, tl, R);
    TailPieces(seg.end, lead, tl, R);
  }

  lemma TextTail(e: string, lead: string, tl: string, R: string)
    ensures e + (" \n" + ((lead + tl) + (" \n\n" + R))) == e + (" \n" + (lead + (tl + (" " + ("\n\n" + R)))))
  {
    assert (lead + tl) + (" \n\n" + R) == lead + (tl + (" " + ("\n\n" + R)));
  }

  /** MatchAt in terms of how far its three greedy runs reach and what the tail of
      the pattern matches after " --> ", stated in four parts: the match exists and
      its number, its start time, its end time and text, and its length. */
  lemma {:induction false} MatchAtRuns(s: string, d: nat, w: nat, t: nat)
    requires 0 < d <= |s| && Run(s, Digits) == d
    requires 0 < w <= |s| - d && Run(s[d..], Spaces) == w
    requires 0 < t <= |s| - d - w && Run(s[d..][w..], TimeChars) == t
    requires StartsWith(s[d..][w..][t..], " --> ")
    requires TailAt(s[d..][w..][t..][5..]).Tail?
    ensures MatchAt(s).Some?
    ensures MatchAt(s).value.index == s[..d]
  {
  }

  lemma {:induction false} MatchAtStart(s: string, d: nat, w: nat, t: nat)
    requires 0 < d <= |s| && Run(s, Digits) == d
    requires 0 < w <= |s| - d && Run(s[d..], Spaces) == w
    requires 0 < t <= |s| - d - w && Run(s[d..][w..], TimeChars) == t
    requires StartsWith(s[d..][w..][t..], " --> ")
    requires TailAt(s[d..][w..][t..][5..]).Tail?
    ensures MatchAt(s).Some?
    ensures MatchAt(s).value.startTime == s[d..][w..][..t]
  {
  }

  lemma {:induction false} MatchAtTail(s: string, d: nat, w: nat, t: nat)
    requires 0 < d <= |s| && Run(s, Digits) == d
    requires 0 < w <= |s| - d && Run(s[d..], Spaces) == w
    requires 0 < t <= |s| - d - w && Run(s[d..][w..], TimeChars) == t
    requires StartsWith(s[d..][w..][t..], " --> ")
    requires TailAt(s[d..][w..][t..][5..]).Tail?
    ensures MatchAt(s).Some?
    ensures MatchAt(s).value.endTime == TailAt(s[d..][w..][t..][5..]).endTime
    ensures MatchAt(s).value.text == TailAt(s[d..][w..][t..][5..]).text
  {
  }

  lemma {:induction false} MatchAtLength(s: string, d: nat, w: nat, t: nat)
    requires 0 < d <= |s| && Run(s, Digits) == d
    requires 0 < w <= |s| - d && Run(s[d..], Spaces) == w
    requires 0 < t <= |s| - d - w && Run(s[d..][w..], TimeChars) == t
    requires StartsWith(s[d..][w..][t..], " --> ")
    requires TailAt(s[d..][w..][t..][5..]).Tail?
    ensures MatchAt(s).Some?
    ensures MatchAt(s).value.length == d + w + t + 5 + TailAt(s[d..][w..][t..][5..]).length
  {
  }

  /** A greedy run over x + y that takes exactly x, and what it leaves. */
  lemma {:induction false} RunSplit(x: string, y: string, k: CharClass)
    requires AllOf(x, k) && y != [] && !InClass(y[0], k)
    ensures Run(x + y, k) == |x| && (x + y)[..|x|] == x && (x + y)[|x|..] == y
  {
    RunExact(x, y, k);
  }

  /** The " \n" after a block's number, and what it leaves. */
  lemma {:induction false} NewlineSplit(rest: string)
    requires rest != [] && IsTimeChar(rest[0])
    ensures Run(" \n" + rest, Spaces) == 2 && (" \n" + rest)[2..] == rest
  {
    NewlineRun(rest);
  }

  /** The head of a block: number, " \n", start time, then " --> ". */
  lemma {:induction false} HeadPieces(D: string, start: string, rest: string)
    requires D != [] && AllOf(D, Digits) && IsTime(start)
    requires |rest| >= 5 && rest[..5] == " --> "
    ensures var s := D + (" \n" + (start + rest));
      |D| + 2 + |start| <= |s| &&
      Run(s, Digits) == |D| && s[..|D|] == D &&
      Run(s[|D|..], Spaces) == 2 && Run(s[|D|..][2..], TimeChars) == |start| &&
      s[|D|..][2..][..|start|] == start && s[|D|..][2..][|start|..] == rest
  {
    RunSplit(D, " \n" + (start + rest), Digits);
    assert IsTimeChar(start[0]);
    NewlineSplit(start + rest);
    RunSplit(start, rest, TimeChars);
  }

  /** " --> " and what follows it. */
  lemma ArrowSplit(T: string)
    ensures StartsWith(" --> " + T, " --> ") && (" --> " + T)[5..] == T
  {
    assert (" --> " + T)[..5] == " --> ";
  }

  lemma {:induction false} BlockLength(k: nat, seg: Segment)
    ensures |Block(k, seg)| == |DecimalString(k)| + |seg.start| + |seg.end| + |seg.text| + 12
  {
  }

  /** The number of a block is a non-empty run of digits. */
  lemma {:induction false} NumberDigits(k: nat)
    ensures DecimalString(k) != [] && AllOf(DecimalString(k), Digits)
  {
    DecimalStringDigits(k);
    AllOfIndexed(DecimalString(k), Digits);
  }

  /** The match at the start of a block followed by R: the number, the two times,
      the captured text, and the whole block but for the "\n" that the next block's
      lookahead starts with. */
  lemma {:induction false} BlockMatch(k: nat, seg: Segment, R: string)
    requires WellFormed(seg)
    requires R == [] || HeadAt("\n" + R)
    ensures var m := MatchAt(Block(k, seg) + R);
      m.Some? && m.value.index == DecimalString(k) && m.value.startTime == seg.start &&
      m.value.endTime == seg.end && m.value.text == Capture(seg, R == []) &&
      m.value.length == |Block(k, seg)| - if R == [] then 0 else 1
  {
    var D := DecimalString(k);
    NumberDigits(k);
    var T := seg.end + (" \n" + (seg.text + (" \n\n" + R)));
    var rest := " --> " + T;
    BlockPieces(k, seg, R);
    var s := D + (" \n" + (seg.start + rest));
    HeadPieces(D, seg.start, rest);
    ArrowSplit(T);
    TailBlock(seg, R);
    MatchAtRuns(s, |D|, 2, |seg.start|);
    MatchAtStart(s, |D|, 2, |seg.start|);
    MatchAtTail(s, |D|, 2, |seg.start|);
    MatchAtLength(s, |D|, 2, |seg.start|);
    BlockLength(k, seg);
  }

  /** HeadAt in terms of how far its three greedy runs reach. */
  lemma HeadAtRuns(s: string, d: nat, w: nat, t: nat)
    requires s != [] && s[0] == '\n'
    requires 0 < d <= |s| - 1 && Run(s[1..], Digits) == d
    requires 0 < w <= |s| - 1 - d && Run(s[1..][d..], Spaces) == w
    requires 0 < t <= |s| - 1 - d - w && Run(s[1..][d..][w..], TimeChars) == t
    requires StartsWith(s[1..][d..][w..][t..], " -->")
    ensures HeadAt(s)
  {
  }

  /** The lookahead holds right before every block. */
  lemma BlockHead(k: nat, seg: Segment, R: string)
    requires IsTime(seg.start)
    ensures HeadAt("\n" + (Block(k, seg) + R))
  {
    var D := DecimalString(k);
    NumberDigits(k);
    var T := seg.end + (" \n" + (seg.text + (" \n\n" + R)));
    var rest := " --> " + T;
    BlockPieces(k, seg, R);
    var s := D + (" \n" + (seg.start + rest));
    HeadPieces(D, seg.start, rest);
    assert rest[..4] == " -->";
    assert ("\n" + s)[1..] == s;
    HeadAtRuns("\n" + s, |D|, 2, |seg.start|);
  }

  /** findall takes the match at the start and resumes after it. */
  lemma {:induction false} FindAllAtMatch(s: string, rest: string)
    requires MatchAt(s).Some? && s[MatchAt(s).value.length..] == rest
    ensures FindAll(s) == [MatchAt(s).value] + FindAll(rest)
  {
  }

  /** What is left of a block followed by R once the block's match is taken. */
  lemma BlockRest(k: nat, seg: Segment, R: string)
    ensures var b := Block(k, seg);
      (b + R)[|b| - (if R == [] then 0 else 1)..] == if R == [] then [] else "\n" + R
  {
    var b := Block(k, seg);
    assert b[|b| - 1] == '\n';
  }

  /** No match starts at a newline: findall moves past it. */
  lemma {:induction false} FindAllNewline(R: string)
    ensures FindAll("\n" + R) == FindAll(R)
  {
    assert Run("\n" + R, Digits) == 0;
    assert ("\n" + R)[1..] == R;
  }

  /** findall over a block followed by R: the block's match, then the matches of R. */
  lemma {:induction false} BlockFindAll(k: nat, seg: Segment, R: string)
    requires WellFormed(seg)
    requires R == [] || HeadAt("\n" + R)
    ensures MatchAt(Block(k, seg) + R).Some?
    ensures FindAll(Block(k, seg) + R) == [MatchAt(Block(k, seg) + R).value] + FindAll(R)
  {
    BlockMatch(k, seg, R);
    BlockRest(k, seg, R);
    FindAllAtMatch(Block(k, seg) + R, if R == [] then [] else "\n" + R);
    FindAllNewline(R);
  }

  /** Stripping the captured text gives the segment's text stripped. */
  lemma CaptureStrip(seg: Segment, last: bool)
    requires AllOf(seg.text, NonNewlines) && !AllSpace(seg.text)
    ensures Strip(Capture(seg, last)) == Strip(seg.text)
  {
    var lead, tl := TextPieces(seg.text);
    var w: string := if last then " \n\n" else " \n";
    assert AllSpace(w);
    StripAppendSpaces(tl, w);
  }

  /** Stripping a one-line text leaves it on one line. */
  lemma {:induction false} StripOneLine(text: string)
    requires AllOf(text, NonNewlines)
    ensures AllOf(Strip(text), NonNewlines)
  {
    var t := TrimLeft(text);
    var r := Strip(text);
    assert r == TrimRight(t) && r == t[..|r|];
    AllOfIndexed(text, NonNewlines);
    AllOfIndexed(r, NonNewlines);
  }

  /** Replacing newlines changes nothing in a one-line text. */
  lemma {:induction false} ReplaceOneLine(x: string)
    requires AllOf(x, NonNewlines)
    ensures ReplaceChar(x, '\n', ' ') == x
  {
    AllOfIndexed(x, NonNewlines);
  }

  /** The record split_transcription makes of a block's match: the block's number,
      its two times, and its text stripped. */
  lemma {:induction false} BlockChunk(k: nat, seg: Segment, last: bool, m: Match)
    requires WellFormed(seg)
    requires m.index == DecimalString(k) && m.startTime == seg.start && m.endTime == seg.end
    requires m.text == Capture(seg, last)
    ensures Normalize(m) == TranscriptChunk(k, seg.start, seg.end, Strip(seg.text))
  {
    DecimalRoundTrip(k);
    StripTime(seg.start);
    StripTime(seg.end);
    CaptureStrip(seg, last);
    StripOneLine(seg.text);
    ReplaceOneLine(Strip(seg.text));
  }

  /** What the match of the block numbered k holds: the number, the two times, and
      the captured text. */
  predicate MatchesBlock(m: Match, k: nat, seg: Segment)
  {
    m.index == DecimalString(k) && m.startTime == seg.start && m.endTime == seg.end &&
    (m.text == Capture(seg, false) || m.text == Capture(seg, true))
  }

  /** findall over a block followed by R: the block's match, then the matches of R. */
  lemma {:induction false} FindAllCons(k: nat, seg: Segment, R: string)
    requires WellFormed(seg)
    requires R == [] || HeadAt("\n" + R)
    ensures |FindAll(Block(k, seg) + R)| == 1 + |FindAll(R)|
    ensures MatchesBlock(FindAll(Block(k, seg) + R)[0], k, seg)
    ensures FindAll(Block(k, seg) + R)[1..] == FindAll(R)
  {
    BlockFindAll(k, seg, R);
    BlockMatch(k, seg, R);
    DropCons(MatchAt(Block(k, seg) + R).value, FindAll(R));
  }

  lemma DropCons<T>(x: T, ys: seq<T>)
    ensures ([x] + ys)[1..] == ys
  {
  }

  /** findall over the blocks numbered from `first`: the first block's match, then
      the matches of the blocks after it. */
  lemma FindAllStep(segs: seq<Segment>, first: nat)
    requires segs != [] && forall i :: 0 <= i < |segs| ==> WellFormed(segs[i])
    ensures var ms := FindAll(Flatten(Blocks(segs, first)));
      var rest := FindAll(Flatten(Blocks(segs[1..], first + 1)));
      |ms| == 1 + |rest| && MatchesBlock(ms[0], first, segs[0]) && ms[1..] == rest
  {
    RenderCons(segs, first);
    var R := Flatten(Blocks(segs[1..], first + 1));
    if |segs| > 1 {
      RenderCons(segs[1..], first + 1);
      BlockHead(first + 1, segs[1], Flatten(Blocks(segs[1..][1..], first + 2)));
    } else {
      assert Blocks(segs[1..], first + 1) == [];
    }
    FindAllCons(first, segs[0], R);
  }

  /** Match i is block i's, for every i, the blocks numbered from `first`. */
  predicate MatchesBlocks(ms: seq<Match>, first: nat, segs: seq<Segment>)
    decreases |segs|
  {
    |ms| == |segs| &&
    (segs != [] ==> MatchesBlock(ms[0], first, segs[0]) && MatchesBlocks(ms[1..], first + 1, segs[1..]))
  }

  lemma {:induction false} MatchesBlocksAt(ms: seq<Match>, first: nat, segs: seq<Segment>, i: nat)
    requires MatchesBlocks(ms, first, segs) && i < |segs|
    ensures |ms| == |segs| && MatchesBlock(ms[i], first + i, segs[i])
    decreases i
  {
    if i > 0 {
      MatchesBlocksAt(ms[1..], first + 1, segs[1..], i - 1);
    }
  }

  /** findall over the blocks numbered from `first`: one match per block, in order. */
  lemma {:induction false} FindAllBlocks(segs: seq<Segment>, first: nat)
    requires forall i :: 0 <= i < |segs| ==> WellFormed(segs[i])
    ensures MatchesBlocks(FindAll(Flatten(Blocks(segs, first))), first, segs)
    decreases |segs|
  {
    if segs == [] {
      assert Blocks(segs, first) == [];
    } else {
      FindAllStep(segs, first);
      FindAllBlocks(segs[1..], first + 1);
    }
  }

  /** The round trip: split_transcription reads the text generate_subtitle_file writes
      back as one record per segment, in order, numbered from 1, with the segment's
      times and its text stripped. */
  lemma ParseRender(segs: seq<Segment>)
    requires forall i :: 0 <= i < |segs| ==> WellFormed(segs[i])
    ensures |Parse(Render(segs))| == |segs|
    ensures forall i :: 0 <= i < |segs| ==>
      Parse(Render(segs))[i] == TranscriptChunk(i + 1, segs[i].start, segs[i].end, Strip(segs[i].text))
  {
    FindAllBlocks(segs, 1);
    var ms := FindAll(Render(segs));
    assert |ms| == |segs|;
    forall i | 0 <= i < |segs|
      ensures Parse(Render(segs))[i] == TranscriptChunk(i + 1, segs[i].start, segs[i].end, Strip(segs[i].text))
    {
      MatchesBlocksAt(ms, 1, segs, i);
      BlockChunk(i + 1, segs[i], ms[i].text == Capture(segs[i], true), ms[i]);
    }
  }

  // ----- a blank text -----

  lemma {:induction false} TimeNoNewline(t: string)
    requires IsTime(t)
    ensures AllOf(t, NonNewlines)
  {
    AllOfIndexed(t, TimeChars);
    AllOfIndexed(t, NonNewlines);
  }

  lemma {:induction false} DigitsNoNewline(d: string)
    requires AllOf(d, Digits)
    ensures AllOf(d, NonNewlines)
  {
    AllOfIndexed(d, Digits);
    AllOfIndexed(d, NonNewlines);
  }

  /** A greedy run over x + y stops within x when y starts outside the class. */
  lemma {:induction false} RunBound(x: string, y: string, k: CharClass)
    requires y != [] && !InClass(y[0], k)
    ensures Run(x + y, k) <= |x|
    decreases |x|
  {
    if x == [] {
      assert x + y == y;
    } else {
      assert (x + y)[1..] == x[1..] + y;
      RunBound(x[1..], y, k);
    }
  }

  /** After " --> " the `\s+` takes one space and `[\d:,]+` finds only '-'. */
  lemma {:induction false} ArrowNoHead(T: string)
    ensures Run(" --> " + T, Spaces) == 1 && (" --> " + T)[1..] == "--> " + T
    ensures Run("--> " + T, TimeChars) == 0
  {
    assert " --> " + T == " " + ("--> " + T);
    assert AllOf(" ", Spaces);
    RunExact(" ", "--> " + T, Spaces);
  }

  /** A "\n" followed by a time and " --> " is no block head: the digits of the time
      are followed by ':', ',' or " -->", never by whitespace and a time. */
  lemma {:induction false} NotHeadBeforeArrow(c: string, T: string)
    requires IsTime(c)
    ensures !HeadAt("\n" + (c + (" --> " + T)))
  {
    var A := " --> " + T;
    var y := c + A;
    assert ("\n" + y)[1..] == y;
    RunBound(c, A, Digits);
    var d := Run(y, Digits);
    if d < |c| {
      AllOfIndexed(c, TimeChars);
      assert y[d..][0] == c[d];
      assert Run(y[d..], Spaces) == 0;
    } else {
      assert y[d..] == A;
      ArrowNoHead(T);
    }
  }

  /** A "\n" followed by a text that does not start with a digit is no block head. */
  lemma {:induction false} NotHeadBeforeText(t: string, T: string)
    requires t != [] && !IsDigit(t[0])
    ensures !HeadAt("\n" + (t + T))
  {
    assert ("\n" + (t + T))[1..] == t + T;
    assert Run(t + T, Digits) == 0;
  }

  /** The lazy group passes a " \n" that does not start a block head. */
  lemma {:induction false} LazySpaceNewline(Z: string)
    requires !HeadAt("\n" + Z)
    ensures LazyLength(" \n" + Z) == 2 + LazyLength(Z)
  {
    var s := " \n" + Z;
    assert s[1..] == "\n" + Z;
    assert ("\n" + Z)[1..] == Z;
  }

  /** The lazy group over the end of a last block: its text and " \n\n". */
  lemma {:induction false} LazyTextEnd(t: string)
    requires AllOf(t, NonNewlines)
    ensures LazyLength(t + (" \n\n" + [])) == |t| + 3
  {
    LazySkip(t, " \n\n" + []);
    var s := " \n\n" + [];
    assert s[1..] == "\n\n" + [];
    LazyEnd([]);
  }

  /** The lazy group over the line of times and the text of a last block whose text
      does not start with a digit. */
  lemma {:induction false} LazyTimeLine(c: string, e: string, t: string)
    requires IsTime(c) && IsTime(e) && AllOf(t, NonNewlines) && t != [] && !IsDigit(t[0])
    ensures LazyLength(c + (" --> " + (e + (" \n" + (t + (" \n\n" + []))))))
      == |c| + |e| + |t| + 10
  {
    var Z3 := t + (" \n\n" + []);
    var Z2 := e + (" \n" + Z3);
    TimeNoNewline(c);
    LazySkip(c, " --> " + Z2);
    AllOfIndexed(" --> ", NonNewlines);
    LazySkip(" --> ", Z2);
    TimeNoNewline(e);
    LazySkip(e, " \n" + Z3);
    NotHeadBeforeText(t, " \n\n" + []);
    LazySpaceNewline(Z3);
    LazyTextEnd(t);
  }

  /** The lazy group started at the last block, when its text does not start with a
      digit, runs to the end: no "\n" inside the block starts a block head. */
  lemma {:induction false} LazyOverBlock(k: nat, seg: Segment)
    requires WellFormed(seg) && seg.text != [] && !IsDigit(seg.text[0])
    ensures LazyLength(Block(k, seg)) == |Block(k, seg)|
  {
    var D := DecimalString(k);
    var c, e, t := seg.start, seg.end, seg.text;
    var Z2 := e + (" \n" + (t + (" \n\n" + [])));
    var Z1 := c + (" --> " + Z2);
    BlockPieces(k, seg, []);
    assert Block(k, seg) + [] == Block(k, seg);
    NumberDigits(k);
    DigitsNoNewline(D);
    LazySkip(D, " \n" + Z1);
    NotHeadBeforeArrow(c, Z2);
    LazySpaceNewline(Z1);
    LazyTimeLine(c, e, t);
    BlockLength(k, seg);
  }

  /** The whitespace the tail's `\s+` takes after the end time of a block whose text
      is blank: the " \n", the text and the " \n\n", up to the next block's number. */
  lemma {:induction false} BlankGap(t1: string, B: string)
    requires AllSpace(t1) && B != [] && IsDigit(B[0])
    ensures var G := " \n" + (t1 + " \n\n");
      " \n" + (t1 + (" \n\n" + B)) == G + B &&
      Run(G + B, Spaces) == |G| && (G + B)[|G|..] == B
  {
    var G := " \n" + (t1 + " \n\n");
    assert forall i :: 0 <= i < |G| ==> IsSpace(G[i]) by {
      forall i | 0 <= i < |G| ensures IsSpace(G[i]) {
        if 2 <= i < 2 + |t1| {
          assert G[i] == t1[i - 2];
        }
      }
    }
    AllOfIndexed(G, Spaces);
    RunSplit(G, B, Spaces);
  }

  /** The tail of the pattern after the " --> " of a block whose text is blank: the
      end time, then the gap, then the lazy group over the whole last block after it. */
  lemma {:induction false} BlankTail(e: string, t1: string, k: nat, second: Segment)
    requires IsTime(e) && AllSpace(t1)
    requires WellFormed(second) && second.text != [] && !IsDigit(second.text[0])
    ensures var B := Block(k, second);
      var r := TailAt(e + (" \n" + (t1 + (" \n\n" + B))));
      r.Tail? && r.text == B && r.length == |e| + |t1| + 5 + |B|
  {
    var B := Block(k, second);
    var T := e + (" \n" + (t1 + (" \n\n" + B)));
    NumberDigits(k);
    assert IsDigit(B[0]) by {
      assert B[0] == DecimalString(k)[0];
      AllOfIndexed(DecimalString(k), Digits);
    }
    TimeRun(e, " \n" + (t1 + (" \n\n" + B)));
    BlankGap(t1, B);
    var G := " \n" + (t1 + " \n\n");
    assert T[|e|..] == G + B;
    LazyOverBlock(k, second);
    TailAtRuns(T, |e|, |G|, |B|);
  }

  /** The match at the start of a blank-text block followed by a last block runs to
      the end of both. */
  lemma {:induction false} BlankMatch(j: nat, first: Segment, k: nat, second: Segment)
    requires IsTime(first.start) && IsTime(first.end) && AllSpace(first.text)
    requires WellFormed(second) && second.text != [] && !IsDigit(second.text[0])
    ensures var m := MatchAt(Block(j, first) + Block(k, second));
      m.Some? && m.value.index == DecimalString(j) && m.value.text == Block(k, second) &&
      m.value.length == |Block(j, first) + Block(k, second)|
  {
    var B2 := Block(k, second);
    var D := DecimalString(j);
    NumberDigits(j);
    var T := first.end + (" \n" + (first.text + (" \n\n" + B2)));
    var rest := " --> " + T;
    BlockPieces(j, first, B2);
    var s := D + (" \n" + (first.start + rest));
    HeadPieces(D, first.start, rest);
    ArrowSplit(T);
    BlankTail(first.end, first.text, k, second);
    MatchAtRuns(s, |D|, 2, |first.start|);
    MatchAtTail(s, |D|, 2, |first.start|);
    MatchAtLength(s, |D|, 2, |first.start|);
    BlockLength(j, first);
  }

  /** findall over the two blocks finds the one match that covers both. */
  lemma {:induction false} BlankFindAllBlocks(j: nat, first: Segment, k: nat, second: Segment)
    requires IsTime(first.start) && IsTime(first.end) && AllSpace(first.text)
    requires WellFormed(second) && second.text != [] && !IsDigit(second.text[0])
    ensures MatchAt(Block(j, first) + Block(k, second)).Some?
    ensures FindAll(Block(j, first) + Block(k, second)) == [MatchAt(Block(j, first) + Block(k, second)).value]
  {
    BlankMatch(j, first, k, second);
    FindAllWhole(Block(j, first) + Block(k, second));
  }

  /** A match that covers the whole text is the only one findall finds. */
  lemma {:induction false} FindAllWhole(s: string)
    requires MatchAt(s).Some? && MatchAt(s).value.length == |s|
    ensures FindAll(s) == [MatchAt(s).value]
  {
    FindAllAtMatch(s, []);
    assert FindAll([]) == [];
  }

  /** Two segments render as their two blocks. */
  lemma {:induction false} RenderTwo(first: Segment, second: Segment)
    ensures Render([first, second]) == Block(1, first) + Block(2, second)
  {
    RenderCons([first, second], 1);
    assert [first, second][1..] == [second];
    RenderCons([second], 2);
    assert [second][1..] == [];
    assert Blocks([], 3) == [];
    assert Block(2, second) + [] == Block(2, second);
  }

  /** The records of a text in which findall finds one match. */
  lemma {:induction false} ParseOne(content: string, m: Match)
    requires FindAll(content) == [m]
    ensures |Parse(content)| == 1 && Parse(content)[0] == Normalize(m)
  {
  }

  /** The record of a match numbered 1. */
  lemma {:induction false} NormalizeFields1(m: Match, text: string)
    requires m.index == DecimalString(1) && m.text == text
    ensures Normalize(m).index == 1 && Normalize(m).text == ReplaceChar(Strip(text), '\n', ' ')
  {
    DecimalRoundTrip(1);
  }

  /** A segment whose text is blank does not read back, and it takes the segment
      after it along: the lazy text group of its block cannot stop before the next
      block, because the next block's head is swallowed by the `\s+` after the end
      time. Two segments come back as one record, numbered 1, whose text is made of
      the whole second block. */
  lemma {:induction false} BlankTextSwallowsNext(first: Segment, second: Segment)
    requires IsTime(first.start) && IsTime(first.end) && AllSpace(first.text)
    requires WellFormed(second) && second.text != [] && !IsDigit(second.text[0])
    ensures !WellFormed(first)
    ensures var cs := Parse(Render([first, second]));
      |cs| == 1 && cs[0].index == 1 &&
      cs[0].text == ReplaceChar(Strip(Block(2, second)), '\n', ' ')
  {
    BlankFindAllBlocks(1, first, 2, second);
    BlankMatch(1, first, 2, second);
    var m := MatchAt(Block(1, first) + Block(2, second)).value;
    RenderTwo(first, second);
    ParseOne(Render([first, second]), m);
    NormalizeFields1(m, Block(2, second));
  }
}
