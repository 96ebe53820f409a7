/**
  The sentence-bounded chunker of text_chunks.py: sentences are packed greedily into
  chunks while the running word count stays strictly below the budget.  The packing
  specification (Pack) is shared with the truncating chunker of summarize.py.
*/
module TextChunks {
  import opened Wrappers
  import opened Strings

  /** nltk.sent_tokenize: the sentences of a document, or None when it raises. */
  type Tokenizer = string -> Option<seq<string>>

  /** `len(sentence.split())` */
  function Words(s: string): nat { |Split(s)| }

  /** The summed word counts of a group of sentences. */
  function WordCount(group: seq<string>): nat
  {
    if group == [] then 0 else WordCount(group[..|group| - 1]) + Words(group[|group| - 1])
  }

  /** The chunker's loop state: the sentence groups already sealed as chunks, the open
      group (`current_chunk`) and its word count (`current_length`). */
  datatype Packing = Packing(sealed: seq<seq<string>>, open: seq<string>, openLength: nat)

  /** One loop iteration for a sentence of the given word count. */
  function PackStep(st: Packing, sentence: string, length: nat, maxTokens: nat): Packing
  {
    if st.openLength + length < maxTokens then
      Packing(st.sealed, st.open + [sentence], st.openLength + length)
    else
      Packing(st.sealed + [st.open], [sentence], length)
  }

  /** The loop state after the given sentences. */
  function PackState(sentences: seq<string>, maxTokens: nat): Packing
  {
    if sentences == [] then Packing([], [], 0)
    else
      var last := sentences[|sentences| - 1];
      PackStep(PackState(sentences[..|sentences| - 1], maxTokens), last, Words(last), maxTokens)
  }

  /** The sentence groups of the emitted chunks: the sealed ones and, when it is not
      empty, the final open group. */
  function Groups(sentences: seq<string>, maxTokens: nat): seq<seq<string>>
  {
    var st := PackState(sentences, maxTokens);
    if st.open != [] then st.sealed + [st.open] else st.sealed
  }

  /** `" ".join(group)` for every group. */
  function JoinEach(groups: seq<seq<string>>): (chunks: seq<string>)
    ensures |chunks| == |groups|
    ensures forall i :: 0 <= i < |groups| ==> chunks[i] == Join(groups[i], " ")
  {
    if groups == [] then [] else [Join(groups[0], " ")] + JoinEach(groups[1..])
  }

  function Pack(sentences: seq<string>, maxTokens: nat): seq<string>
  {
    JoinEach(Groups(sentences, maxTokens))
  }

  /** What split_text_into_chunks returns. */
  function Chunks(document: string, maxTokens: nat, tokenize: Tokenizer): seq<string>
  {
    if document == "" then []
    else match tokenize(document)
      case None => []
      case Some(sentences) => Pack(sentences, maxTokens)
  }

  /** The chunker of text_chunks.py, as the loop the source runs. */
  method SplitTextIntoChunks(document: string, maxTokens: nat, tokenize: Tokenizer)
    returns (chunks: seq<string>)
    ensures chunks == Chunks(document, maxTokens, tokenize)
    ensures document == "" ==> chunks == []
    ensures tokenize(document).None? ==> chunks == []
  {
    if document == "" {
      return [];
    }
    var tokens := tokenize(document);
    if tokens.None? {
      return [];
    }
    var sentences := tokens.value;
    chunks := [];
    var current: seq<string> := [];
    var currentLength: nat := 0;
    for i := 0 to |sentences|
      invariant chunks == JoinEach(PackState(sentences[..i], maxTokens).sealed)
      invariant current == PackState(sentences[..i], maxTokens).open
      invariant currentLength == PackState(sentences[..i], maxTokens).openLength
    {
      var sentence := sentences[i];
      var sentenceLength := |Split(sentence)|;
      assert sentences[..i + 1][..i] == sentences[..i];
      if currentLength + sentenceLength < maxTokens {
        current := current + [sentence];
        currentLength := currentLength + sentenceLength;
      } else {
        JoinEachSnoc(PackState(sentences[..i], maxTokens).sealed, current);
        chunks := chunks + [Join(current, " ")];
        current, currentLength := [sentence], sentenceLength;
      }
    }
    assert sentences[..|sentences|] == sentences;
    if current != [] {
      JoinEachSnoc(PackState(sentences, maxTokens).sealed, current);
      chunks := chunks + [Join(current, " ")];
    }
  }

  lemma {:induction false} JoinEachSnoc(groups: seq<seq<string>>, g: seq<string>)
    ensures JoinEach(groups + [g]) == JoinEach(groups) + [Join(g, " ")]
  {
  }

  /** The facts the loop keeps about its state after the sentences seen so far. */
  ghost predicate PackInvariant(st: Packing, sentences: seq<string>, maxTokens: nat)
  {
    && Flatten(st.sealed) + st.open == sentences
    && st.openLength == WordCount(st.open)
    && (sentences != [] ==> st.open != [])
    && (forall i :: 1 <= i < |st.sealed| ==> st.sealed[i] != [])
    && ((|st.sealed| > 0 && st.sealed[0] == []) <==> (sentences != [] && Words(sentences[0]) >= maxTokens))
    && (forall i :: 0 <= i < |st.sealed| && |st.sealed[i]| >= 2 ==> WordCount(st.sealed[i]) < maxTokens)
    && (|st.open| >= 2 ==> st.openLength < maxTokens)
  }

  lemma {:induction false} PackStateInvariant(sentences: seq<string>, maxTokens: nat)
    ensures PackInvariant(PackState(sentences, maxTokens), sentences, maxTokens)
    decreases |sentences|
  {
    if sentences != [] {
      var prefix := sentences[..|sentences| - 1];
      var last := sentences[|sentences| - 1];
      assert sentences == prefix + [last];
      PackStateInvariant(prefix, maxTokens);
      var st := PackState(prefix, maxTokens);
      if st.openLength + Words(last) < maxTokens {
        PackExtendInvariant(st, prefix, last, maxTokens);
      } else {
        PackSealInvariant(st, prefix, last, maxTokens);
      }
    }
  }

  /** A sentence that fits joins the open group. */
  lemma {:induction false} PackExtendInvariant(st: Packing, prefix: seq<string>, last: string, maxTokens: nat)
    requires PackInvariant(st, prefix, maxTokens) && st.openLength + Words(last) < maxTokens
    ensures PackInvariant(Packing(st.sealed, st.open + [last], st.openLength + Words(last)), prefix + [last], maxTokens)
  {
    assert (st.open + [last])[..|st.open|] == st.open;
    assert prefix != [] ==> (prefix + [last])[0] == prefix[0];
    assert Flatten(st.sealed) + (st.open + [last]) == (Flatten(st.sealed) + st.open) + [last];
  }

  /** A sentence that does not fit seals the open group and opens a new one. */
  lemma {:induction false} PackSealInvariant(st: Packing, prefix: seq<string>, last: string, maxTokens: nat)
    requires PackInvariant(st, prefix, maxTokens) && st.openLength + Words(last) >= maxTokens
    ensures PackInvariant(Packing(st.sealed + [st.open], [last], Words(last)), prefix + [last], maxTokens)
  {
    FlattenSnoc(st.sealed, st.open);
    assert [last][..0] == [];
    assert prefix != [] ==> (prefix + [last])[0] == prefix[0];
    assert |st.sealed| == 0 && prefix != [] ==> (st.sealed + [st.open])[0] == st.open;
    assert forall i :: 0 <= i < |st.sealed| ==> (st.sealed + [st.open])[i] == st.sealed[i];
  }

  /** Nothing is lost, nothing is reordered: the groups tile the sentence sequence. */
  lemma GroupsTile(sentences: seq<string>, maxTokens: nat)
    ensures Flatten(Groups(sentences, maxTokens)) == sentences
  {
    PackStateInvariant(sentences, maxTokens);
    var st := PackState(sentences, maxTokens);
    if st.open != [] {
      FlattenSnoc(st.sealed, st.open);
    } else {
      assert st.open == [];
      assert Flatten(st.sealed) + [] == Flatten(st.sealed);
    }
  }

  /** The shape of a split: only the first group can be empty, and it is empty exactly
      when the first sentence alone reaches the budget; a group of two or more
      sentences stays strictly below the budget, so a group at or over the budget is a
      single sentence. */
  lemma GroupsShape(sentences: seq<string>, maxTokens: nat)
    ensures var g := Groups(sentences, maxTokens);
      && (forall i :: 1 <= i < |g| ==> g[i] != [])
      && ((|g| > 0 && g[0] == []) <==> (sentences != [] && Words(sentences[0]) >= maxTokens))
      && (forall i :: 0 <= i < |g| && |g[i]| >= 2 ==> WordCount(g[i]) < maxTokens)
      && (sentences != [] ==> |g| > 0 && g[|g| - 1] != [])
  {
    PackStateInvariant(sentences, maxTokens);
    var st := PackState(sentences, maxTokens);
    if sentences == [] {
      assert st == Packing([], [], 0);
    }
  }

  /** The words of a chunk are the words of its sentences, so its word count is the
      group's summed word count. */
  lemma {:induction false} ChunkWords(group: seq<string>)
    ensures Words(Join(group, " ")) == WordCount(group)
  {
    SplitJoin(group);
    SplitAllCount(group);
  }

  lemma {:induction false} SplitAllCount(group: seq<string>)
    ensures |SplitAll(group)| == WordCount(group)
    decreases |group|
  {
    if group != [] {
      var prefix := group[..|group| - 1];
      assert group == prefix + [group[|group| - 1]];
      SplitAllAppend(prefix, [group[|group| - 1]]);
      assert SplitAll([group[|group| - 1]]) == Split(group[|group| - 1]) + SplitAll([]);
      SplitAllCount(prefix);
    }
  }

  /** Every chunk of two or more sentences has fewer words than the budget; the empty
      leading chunk appears exactly when the first sentence alone reaches the budget. */
  lemma PackBounds(sentences: seq<string>, maxTokens: nat)
    ensures var g := Groups(sentences, maxTokens);
      forall i :: 0 <= i < |g| && |g[i]| >= 2 ==> Words(Pack(sentences, maxTokens)[i]) < maxTokens
  {
    var g := Groups(sentences, maxTokens);
    GroupsShape(sentences, maxTokens);
    forall i | 0 <= i < |g| && |g[i]| >= 2
      ensures Words(Pack(sentences, maxTokens)[i]) < maxTokens
    {
      ChunkWords(g[i]);
    }
  }

  /** The non-empty members of a sequence of sequences, in order. */
  function NonEmpty<T>(xss: seq<seq<T>>): (r: seq<seq<T>>)
    ensures forall i :: 0 <= i < |r| ==> r[i] != []
  {
    if xss == [] then []
    else if xss[0] == [] then NonEmpty(xss[1..])
    else [xss[0]] + NonEmpty(xss[1..])
  }

  lemma {:induction false} FlattenNonEmpty<T>(xss: seq<seq<T>>)
    ensures Flatten(NonEmpty(xss)) == Flatten(xss)
  {
    if xss != [] {
      FlattenNonEmpty(xss[1..]);
    }
  }

  lemma {:induction false} JoinNonEmptyStrings(g: seq<string>)
    requires g != [] && forall i :: 0 <= i < |g| ==> g[i] != ""
    ensures Join(g, " ") != ""
  {
  }

  lemma {:induction false} NonEmptyJoinEach(groups: seq<seq<string>>)
    requires forall i, j :: 0 <= i < |groups| && 0 <= j < |groups[i]| ==> groups[i][j] != ""
    ensures NonEmpty(JoinEach(groups)) == JoinEach(NonEmpty(groups))
  {
    if groups != [] {
      if groups[0] != [] {
        JoinNonEmptyStrings(groups[0]);
      }
      NonEmptyJoinEach(groups[1..]);
    }
  }

  /** Joining the chunks of non-empty groups with single spaces reproduces the sentences
      joined with single spaces. */
  lemma {:induction false} JoinJoinEach(groups: seq<seq<string>>)
    requires forall i :: 0 <= i < |groups| ==> groups[i] != []
    ensures Join(JoinEach(groups), " ") == Join(Flatten(groups), " ")
  {
    if |groups| == 1 {
      assert Flatten(groups) == groups[0] + Flatten(groups[1..]);
      assert groups[0] + Flatten(groups[1..]) == groups[0];
      assert JoinEach(groups) == [Join(groups[0], " ")];
    } else if |groups| > 1 {
      JoinJoinEach(groups[1..]);
      FlattenNonEmptyOf(groups[1..]);
      JoinAppend(groups[0], Flatten(groups[1..]), " ");
    }
  }

  lemma {:induction false} FlattenNonEmptyOf(groups: seq<seq<string>>)
    requires groups != [] && forall i :: 0 <= i < |groups| ==> groups[i] != []
    ensures Flatten(groups) != []
  {
  }

  /** Re-tiling at the level of text: when no sentence is the empty string, the
      non-empty chunks joined with single spaces are the sentences joined with single
      spaces. */
  lemma {:induction false} PackRetiles(sentences: seq<string>, maxTokens: nat)
    requires forall i :: 0 <= i < |sentences| ==> sentences[i] != ""
    ensures Join(NonEmpty(Pack(sentences, maxTokens)), " ") == Join(sentences, " ")
  {
    var g := Groups(sentences, maxTokens);
    GroupsTile(sentences, maxTokens);
    forall i, j | 0 <= i < |g| && 0 <= j < |g[i]| ensures g[i][j] != "" {
      FlattenMember(g, i, j);
    }
    NonEmptyJoinEach(g);
    JoinJoinEach(NonEmpty(g));
    FlattenNonEmpty(g);
  }

  /** Every member of a member of xss occurs in Flatten(xss). */
  lemma {:induction false} FlattenMember<T>(xss: seq<seq<T>>, i: nat, j: nat)
    requires i < |xss| && j < |xss[i]|
    ensures exists k :: 0 <= k < |Flatten(xss)| && Flatten(xss)[k] == xss[i][j]
  {
    if i == 0 {
      assert Flatten(xss)[j] == xss[0][j];
    } else {
      FlattenMember(xss[1..], i - 1, j);
      var k :| 0 <= k < |Flatten(xss[1..])| && Flatten(xss[1..])[k] == xss[i][j];
      assert Flatten(xss)[|xss[0]| + k] == xss[i][j];
    }
  }

  /** An empty document, or a tokenizer that raises, gives no chunks. */
  lemma ChunksOfNothing(document: string, maxTokens: nat, tokenize: Tokenizer)
    requires document == "" || tokenize(document).None?
    ensures Chunks(document, maxTokens, tokenize) == []
  {
  }

  /** The leading empty chunk: the first chunk is "" exactly when the first sentence
      has at least maxTokens words (sentences being non-empty strings). */
  lemma LeadingEmptyChunk(sentences: seq<string>, maxTokens: nat)
    requires forall i :: 0 <= i < |sentences| ==> sentences[i] != ""
    ensures var c := Pack(sentences, maxTokens);
      (|c| > 0 && c[0] == "") <==> (sentences != [] && Words(sentences[0]) >= maxTokens)
  {
    var g := Groups(sentences, maxTokens);
    GroupsShape(sentences, maxTokens);
    GroupsTile(sentences, maxTokens);
    if |g| > 0 && g[0] != [] {
      forall j | 0 <= j < |g[0]| ensures g[0][j] != "" {
        FlattenMember(g, 0, j);
      }
      JoinNonEmptyStrings(g[0]);
    }
  }
}
