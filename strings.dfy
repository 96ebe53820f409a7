/** The Option datatype used where the Python code returns None or raises. */
module Wrappers {

  datatype Option<+T> = None | Some(value: T)
}

/**
  Models of the Python string builtins the pipeline is built from: str.isspace,
  str.split(), str.strip(), " ".join, str.lower(), the substring test `in`,
  str.replace on one character, str(n) / int(s) on decimal digits, and
  file.readlines().  Each is given a definition and the facts the pipeline's
  proofs need.
*/
module Strings {

  /** Python's str.isspace(); str.split(), str.strip() and the regex class \s on str
      patterns all use this same set of characters. */
  predicate IsSpace(c: char)
  {
    || c == ' ' || c == '\t' || c == '\n' || c == '\r' || c == '\U{0B}' || c == '\U{0C}'
    || ('\U{1C}' <= c <= '\U{1F}') || c == '\U{85}' || c == '\U{A0}' || c == '\U{1680}'
    || ('\U{2000}' <= c <= '\U{200A}') || c == '\U{2028}' || c == '\U{2029}'
    || c == '\U{202F}' || c == '\U{205F}' || c == '\U{3000}'
  }

  predicate IsWordChar(c: char) { !IsSpace(c) }

  /** The regex class \d, restricted to the ASCII digits. */
  predicate IsDigit(c: char) { '0' <= c <= '9' }

  predicate IsNotNewline(c: char) { c != '\n' }

  predicate AllSpace(s: string) { forall i :: 0 <= i < |s| ==> IsSpace(s[i]) }

  /** A word as str.split() returns it: non-empty, without whitespace. */
  predicate IsWord(w: string) { w != [] && forall i :: 0 <= i < |w| ==> !IsSpace(w[i]) }

  /** Concatenation of a sequence of sequences, in order. */
  function Flatten<T>(xss: seq<seq<T>>): seq<T>
  {
    if xss == [] then [] else xss[0] + Flatten(xss[1..])
  }

  lemma {:induction false} FlattenAppend<T>(a: seq<seq<T>>, b: seq<seq<T>>)
    ensures Flatten(a + b) == Flatten(a) + Flatten(b)
  {
    if a == [] {
      assert a + b == b;
    } else {
      assert (a + b)[1..] == a[1..] + b;
      FlattenAppend(a[1..], b);
    }
  }

  lemma {:induction false} FlattenSnoc<T>(a: seq<seq<T>>, x: seq<T>)
    ensures Flatten(a + [x]) == Flatten(a) + x
  {
    FlattenAppend(a, [x]);
    assert Flatten([x]) == x + Flatten([x][1..]);
  }

  lemma TakeSnoc<T>(xs: seq<T>, i: nat)
    requires i < |xs|
    ensures xs[..i + 1] == xs[..i] + [xs[i]]
  {
  }

  lemma AppendAssoc<T>(x: seq<T>, y: seq<T>, z: seq<T>)
    ensures (x + y) + z == x + (y + z)
  {
  }

  lemma TakeTake<T>(xs: seq<T>, i: nat, j: nat)
    requires i <= j <= |xs|
    ensures xs[..j][..i] == xs[..i]
  {
  }

  /** Length of the longest prefix of s whose characters all satisfy p. */
  function Span(s: string, p: char -> bool): (n: nat)
    ensures n <= |s|
    ensures forall i :: 0 <= i < n ==> p(s[i])
    ensures n < |s| ==> !p(s[n])
  {
    if s == [] || !p(s[0]) then 0 else 1 + Span(s[1..], p)
  }

  lemma {:induction false} SpanAppend(x: string, y: string, p: char -> bool)
    requires forall i :: 0 <= i < |x| ==> p(x[i])
    ensures Span(x + y, p) == |x| + Span(y, p)
  {
    if x == [] {
      assert x + y == y;
    } else {
      assert (x + y)[1..] == x[1..] + y;
      SpanAppend(x[1..], y, p);
    }
  }

  /** Python's str.split() without arguments: the maximal runs of non-whitespace. */
  function Split(s: string): (ws: seq<string>)
    ensures forall i :: 0 <= i < |ws| ==> IsWord(ws[i])
    decreases |s|
  {
    if s == [] then []
    else if IsSpace(s[0]) then Split(s[1..])
    else
      var n := Span(s, IsWordChar);
      [s[..n]] + Split(s[n..])
  }

  /** Python's sep.join(parts). */
  function Join(parts: seq<string>, sep: string): string
  {
    if parts == [] then ""
    else if |parts| == 1 then parts[0]
    else parts[0] + sep + Join(parts[1..], sep)
  }

  lemma {:induction false} JoinAppend(a: seq<string>, b: seq<string>, sep: string)
    requires a != [] && b != []
    ensures Join(a + b, sep) == Join(a, sep) + sep + Join(b, sep)
  {
    if |a| == 1 {
      assert (a + b)[1..] == b;
    } else {
      assert (a + b)[1..] == a[1..] + b;
      JoinAppend(a[1..], b, sep);
    }
  }

  lemma {:induction false} JoinSnoc(a: seq<string>, x: string, sep: string)
    ensures Join(a + [x], sep) == if a == [] then x else Join(a, sep) + sep + x
  {
    if a == [] {
      assert a + [x] == [x];
    } else {
      JoinAppend(a, [x], sep);
    }
  }

  /** A whitespace character separates the words on its two sides. */
  lemma {:induction false} SplitAround(a: string, c: char, b: string)
    requires IsSpace(c)
    ensures Split(a + [c] + b) == Split(a) + Split(b)
    decreases |a|
  {
    var s := a + [c] + b;
    if a == [] {
      assert s == [c] + b && s[1..] == b;
    } else if IsSpace(a[0]) {
      assert s[1..] == a[1..] + [c] + b;
      SplitAround(a[1..], c, b);
    } else {
      var m := Span(a, IsWordChar);
      SplitAroundWord(a, c, b);
      SplitAround(a[m..], c, b);
      assert Split(a) == [a[..m]] + Split(a[m..]);
      AppendAssoc([a[..m]], Split(a[m..]), Split(b));
    }
  }

  /** The word a starts with is also the first word of a + [c] + b. */
  lemma SplitAroundWord(a: string, c: char, b: string)
    requires IsSpace(c) && a != [] && !IsSpace(a[0])
    ensures var m := Span(a, IsWordChar);
      Split(a + [c] + b) == [a[..m]] + Split(a[m..] + [c] + b)
  {
    var s := a + [c] + b;
    var m := Span(a, IsWordChar);
    assert a == a[..m] + a[m..];
    SpanAppend(a[..m], a[m..] + [c] + b, IsWordChar);
    assert s == a[..m] + (a[m..] + [c] + b);
    assert Span(a[m..] + [c] + b, IsWordChar) == 0;
    assert s[..m] == a[..m];
    assert s[m..] == a[m..] + [c] + b;
  }

  lemma {:induction false} SplitWord(w: string)
    requires IsWord(w)
    ensures Split(w) == [w]
  {
    SpanAppend(w, [], IsWordChar);
    assert w + [] == w;
    assert w[..|w|] == w && w[|w|..] == [];
  }

  /** The words of each part, in order. */
  function SplitAll(parts: seq<string>): seq<string>
  {
    if parts == [] then [] else Split(parts[0]) + SplitAll(parts[1..])
  }

  lemma {:induction false} SplitAllAppend(a: seq<string>, b: seq<string>)
    ensures SplitAll(a + b) == SplitAll(a) + SplitAll(b)
  {
    if a == [] {
      assert a + b == b;
    } else {
      assert (a + b)[1..] == a[1..] + b;
      SplitAllAppend(a[1..], b);
    }
  }

  /** Joining with single spaces neither merges nor loses words. */
  lemma {:induction false} SplitJoin(parts: seq<string>)
    ensures Split(Join(parts, " ")) == SplitAll(parts)
  {
    if |parts| == 1 {
      assert SplitAll(parts) == Split(parts[0]) + SplitAll([]);
    } else if |parts| > 1 {
      SplitJoin(parts[1..]);
      assert parts[0] + " " + Join(parts[1..], " ") == parts[0] + [' '] + Join(parts[1..], " ");
      SplitAround(parts[0], ' ', Join(parts[1..], " "));
    }
  }

  lemma {:induction false} SplitAllWords(ws: seq<string>)
    requires forall i :: 0 <= i < |ws| ==> IsWord(ws[i])
    ensures SplitAll(ws) == ws
  {
    if ws != [] {
      SplitWord(ws[0]);
      SplitAllWords(ws[1..]);
    }
  }

  /** Splitting words joined by single spaces gives the words back. */
  lemma {:induction false} SplitJoinWords(ws: seq<string>)
    requires forall i :: 0 <= i < |ws| ==> IsWord(ws[i])
    ensures Split(Join(ws, " ")) == ws
  {
    SplitJoin(ws);
    SplitAllWords(ws);
  }

  lemma {:induction false} SplitLeadingSpaces(w: string, s: string)
    requires AllSpace(w)
    ensures Split(w + s) == Split(s)
    decreases |w|
  {
    if w == [] {
      assert w + s == s;
    } else {
      assert (w + s)[1..] == w[1..] + s;
      SplitLeadingSpaces(w[1..], s);
    }
  }

  lemma {:induction false} SplitTrailingSpaces(s: string, w: string)
    requires AllSpace(w)
    ensures Split(s + w) == Split(s)
  {
    if w == [] {
      assert s + w == s;
    } else {
      assert s + w == s + [w[0]] + w[1..];
      SplitAround(s, w[0], w[1..]);
      SplitLeadingSpaces(w[1..], []);
      assert w[1..] + [] == w[1..];
    }
  }

  function Min(a: nat, b: nat): nat { if a <= b then a else b }

  /** `" ".join(s.split()[:n])`, applied only when s has more than n words: the result
      keeps exactly the first n words. */
  function Truncate(s: string, n: nat): (r: string)
    ensures |Split(r)| == Min(|Split(s)|, n)
    ensures Split(r) == Split(s)[..|Split(r)|]
    ensures |Split(s)| <= n ==> r == s
  {
    if |Split(s)| > n then
      SplitJoinWords(Split(s)[..n]);
      Join(Split(s)[..n], " ")
    else s
  }

  /** str.lstrip(): drops the leading whitespace. */
  function TrimLeft(s: string): (r: string)
    ensures |r| <= |s| && r == s[|s| - |r|..]
    ensures AllSpace(s[..|s| - |r|])
    ensures r == [] || !IsSpace(r[0])
  {
    s[Span(s, IsSpace)..]
  }

  /** str.rstrip(): drops the trailing whitespace. */
  function TrimRight(s: string): (r: string)
    ensures |r| <= |s| && r == s[..|r|]
    ensures AllSpace(s[|r|..])
    ensures r == [] || !IsSpace(r[|r| - 1])
    decreases |s|
  {
    if s != [] && IsSpace(s[|s| - 1]) then
      var r := TrimRight(s[..|s| - 1]);
      assert s[|r|..] == s[..|s| - 1][|r|..] + [s[|s| - 1]];
      r
    else s
  }

  /** str.strip(): drops leading and trailing whitespace (StripSlice: and only that). */
  function Strip(s: string): (r: string)
    ensures r == "" || (!IsSpace(r[0]) && !IsSpace(r[|r| - 1]))
    ensures r == "" <==> AllSpace(s)
  {
    var t := TrimLeft(s);
    var r := TrimRight(t);
    assert r == "" ==> AllSpace(s) by {
      if r == "" {
        assert AllSpace(t[|r|..]);
        assert s == s[..|s| - |t|] + t;
      }
    }
    r
  }

  /** Strip removes only whitespace: its result is a slice of s with nothing but
      whitespace on either side of it. */
  lemma {:induction false} StripSlice(s: string)
    ensures var r := Strip(s);
      exists i :: 0 <= i <= |s| - |r| && r == s[i..i + |r|] && AllSpace(s[..i]) && AllSpace(s[i + |r|..])
  {
    var t := TrimLeft(s);
    var r := TrimRight(t);
    var i := |s| - |t|;
    assert s[i + |r|..] == t[|r|..];
    assert r == s[i..i + |r|];
  }

  /** Stripping never changes the words of a string. */
  lemma {:induction false} SplitStrip(s: string)
    ensures Split(Strip(s)) == Split(s)
  {
    var t := TrimLeft(s);
    assert s == s[..|s| - |t|] + t;
    SplitLeadingSpaces(s[..|s| - |t|], t);
    var r := TrimRight(t);
    assert t == r + t[|r|..];
    SplitTrailingSpaces(r, t[|r|..]);
  }

  /** A string that is not blank has at least one word. */
  lemma {:induction false} SplitNonBlank(s: string)
    requires Strip(s) != ""
    ensures Split(s) != []
  {
    SplitStrip(s);
  }

  lemma TrimLeftKeeps(x: string, y: string)
    requires x != [] && !IsSpace(x[0])
    ensures TrimLeft(x + y) == x + y
  {
  }

  lemma {:induction false} TrimRightSpaces(x: string, w: string)
    requires AllSpace(w)
    ensures TrimRight(x + w) == TrimRight(x)
    decreases |w|
  {
    if w != [] {
      assert (x + w)[..|x + w| - 1] == x + w[..|w| - 1];
      TrimRightSpaces(x, w[..|w| - 1]);
    } else {
      assert x + w == x;
    }
  }

  /** Appending whitespace to a string that starts with a non-space character does not
      change what strip() returns. */
  lemma {:induction false} StripAppendSpaces(x: string, w: string)
    requires x != [] && !IsSpace(x[0])
    requires AllSpace(w)
    ensures Strip(x + w) == TrimRight(x)
  {
    TrimLeftKeeps(x, w);
    TrimRightSpaces(x, w);
  }

  function LowerChar(c: char): char
  {
    if 'A' <= c <= 'Z' then (c as int + 32) as char else c
  }

  /** str.lower() on the ASCII letters. */
  function Lower(s: string): (r: string)
    ensures |r| == |s|
    ensures forall i :: 0 <= i < |s| ==> r[i] == LowerChar(s[i])
  {
    seq(|s|, i requires 0 <= i < |s| => LowerChar(s[i]))
  }

  predicate StartsWith(s: string, prefix: string)
  {
    |prefix| <= |s| && s[..|prefix|] == prefix
  }

  /** The substring test `sub in s`. */
  predicate Contains(s: string, sub: string)
    decreases |s|
  {
    StartsWith(s, sub) || (s != [] && Contains(s[1..], sub))
  }

  lemma {:induction false} ContainsAt(s: string, sub: string, i: nat)
    requires i + |sub| <= |s| && s[i..i + |sub|] == sub
    ensures Contains(s, sub)
  {
    if i > 0 {
      assert s[1..][i - 1..i - 1 + |sub|] == s[i..i + |sub|];
      ContainsAt(s[1..], sub, i - 1);
    }
  }

  lemma {:induction false} ContainsSuffix(s: string, k: nat, sub: string)
    requires k <= |s| && Contains(s[k..], sub)
    ensures Contains(s, sub)
    decreases k
  {
    if k > 0 {
      assert s[1..][k - 1..] == s[k..];
      ContainsSuffix(s[1..], k - 1, sub);
    }
  }

  lemma {:induction false} ContainsLength(s: string, sub: string)
    requires Contains(s, sub)
    ensures |sub| <= |s|
    decreases |s|
  {
    if !StartsWith(s, sub) {
      ContainsLength(s[1..], sub);
    }
  }

  /** s.replace(a, b) for single characters a and b. */
  function ReplaceChar(s: string, a: char, b: char): (r: string)
    ensures |r| == |s|
    ensures forall i :: 0 <= i < |s| ==> r[i] == (if s[i] == a then b else s[i])
  {
    seq(|s|, i requires 0 <= i < |s| => if s[i] == a then b else s[i])
  }

  function DigitChar(d: nat): char
    requires d < 10
  {
    ('0' as int + d) as char
  }

  /** str(n) for a non-negative integer: its decimal digits, without leading zeros. */
  function DecimalString(n: nat): (r: string)
    ensures r != []
  {
    if n < 10 then [DigitChar(n)] else DecimalString(n / 10) + [DigitChar(n % 10)]
  }

  /** str(n) consists of decimal digits only. */
  lemma {:induction false} DecimalStringDigits(n: nat)
    ensures forall i :: 0 <= i < |DecimalString(n)| ==> IsDigit(DecimalString(n)[i])
  {
    if n >= 10 {
      DecimalStringDigits(n / 10);
    }
  }

  /** int(s) for a string of decimal digits. */
  function DecimalValue(s: string): nat
  {
    if s == [] then 0
    else
      var c := s[|s| - 1];
      var d := if IsDigit(c) then c as int - '0' as int else 0;
      10 * DecimalValue(s[..|s| - 1]) + d
  }

  lemma {:induction false} DecimalRoundTrip(n: nat)
    ensures DecimalValue(DecimalString(n)) == n
  {
    if n >= 10 {
      var s := DecimalString(n);
      assert s[..|s| - 1] == DecimalString(n / 10);
      DecimalRoundTrip(n / 10);
    }
  }

  /** file.readlines(): the lines of s, each keeping its terminating newline. */
  function Lines(s: string): (ls: seq<string>)
    ensures Flatten(ls) == s
    ensures forall i :: 0 <= i < |ls| ==> ls[i] != ""
    ensures forall i, j :: 0 <= i < |ls| && 0 <= j < |ls[i]| - 1 ==> ls[i][j] != '\n'
    decreases |s|
  {
    if s == [] then []
    else
      var k := Span(s, IsNotNewline);
      var n := if k < |s| then k + 1 else k;
      assert s == s[..n] + s[n..];
      [s[..n]] + Lines(s[n..])
  }

  /** Every line but the last ends in the newline that closes it. */
  lemma {:induction false} LinesTerminated(s: string)
    ensures forall i :: 0 <= i < |Lines(s)| - 1 ==> Lines(s)[i][|Lines(s)[i]| - 1] == '\n'
    decreases |s|
  {
    if s != [] {
      var n := LinesStep(s);
      if n < |s| {
        FirstLineEnds(s);
      }
      LinesTerminated(s[n..]);
      TerminatedCons(s[..n], Lines(s[n..]));
    }
  }

  /** The length of the first line of s, its newline included. */
  function FirstLineLength(s: string): nat
  {
    var k := Span(s, IsNotNewline);
    if k < |s| then k + 1 else k
  }

  /** The first line of a non-empty s, and where the rest starts. */
  lemma {:induction false} LinesStep(s: string) returns (n: nat)
    requires s != []
    ensures n == FirstLineLength(s) && 0 < n <= |s| && Lines(s) == [s[..n]] + Lines(s[n..])
  {
    n := FirstLineLength(s);
  }

  /** A first line that is not the last one ends in its newline. */
  lemma {:induction false} FirstLineEnds(s: string)
    requires s != [] && FirstLineLength(s) < |s|
    ensures s[..FirstLineLength(s)][FirstLineLength(s) - 1] == '\n'
  {
    var k := Span(s, IsNotNewline);
    assert s[..k + 1][k] == s[k];
  }

  lemma {:induction false} TerminatedCons(h: string, rest: seq<string>)
    requires h != [] && forall i :: 0 <= i < |rest| ==> rest[i] != []
    requires rest != [] ==> h[|h| - 1] == '\n'
    requires forall i :: 0 <= i < |rest| - 1 ==> rest[i][|rest[i]| - 1] == '\n'
    ensures var ls := [h] + rest;
      forall i :: 0 <= i < |ls| - 1 ==> ls[i][|ls[i]| - 1] == '\n'
  {
    var ls := [h] + rest;
    forall i | 0 <= i < |ls| - 1 ensures ls[i][|ls[i]| - 1] == '\n' {
      if i > 0 {
        assert ls[i] == rest[i - 1];
      }
    }
  }
}
