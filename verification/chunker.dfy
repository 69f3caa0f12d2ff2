/** The word-greedy chunker `chunkText(text, maxBytes)`.

    `Fold`/`Groups` are the reference definition: they follow the loop word by
    word but keep, for each chunk, the list of words it holds. `ChunkText` is
    the loop itself, working on strings (`currentChunk`, `currentSize`,
    `trim()`), and is proved to return `Chunks`, the word lists joined by
    single spaces. The lemmas state what the chunks are: the words of the
    split, in order and never cut, in groups whose summed byte length is
    within `maxBytes` unless the group is one oversize word. */
module Chunker {
  import opened Text

  /** The loop state seen at the level of words: the word lists of the chunks
      already emitted, the words of the running chunk, and whether the running
      chunk string is non-empty (JavaScript truthiness of `currentChunk`). */
  datatype Acc = Acc(done: seq<seq<string>>, cur: seq<string>, open: bool)

  /** The words a split piece contributes: none for an empty piece. */
  function Word(w: string): seq<string>
  {
    if w == "" then [] else [w]
  }

  /** One iteration: flush when the running size plus the word's size would
      pass `maxBytes`, otherwise append the word to the running chunk. */
  function Step(a: Acc, w: string, maxBytes: nat): Acc
  {
    if SumBytes(a.cur) + ByteLen(w) > maxBytes then Acc(a.done + [a.cur], Word(w), w != "")
    else Acc(a.done, a.cur + Word(w), true)
  }

  /** The state after the first `k` split pieces. */
  function Fold(ws: seq<string>, k: nat, maxBytes: nat): Acc
    requires k <= |ws|
    decreases k
  {
    if k == 0 then Acc([], [], false) else Step(Fold(ws, k - 1, maxBytes), ws[k - 1], maxBytes)
  }

  /** The word lists of the chunks of `text`: nothing for the empty text;
      otherwise the flushed lists, then the running one if its string is
      non-empty. */
  function Groups(text: string, maxBytes: nat): seq<seq<string>>
  {
    if text == "" then []
    else
      var ws := Split(text);
      var a := Fold(ws, |ws|, maxBytes);
      if a.open then a.done + [a.cur] else a.done
  }

  function JoinAll(gs: seq<seq<string>>): (r: seq<string>)
    ensures |r| == |gs|
  {
    seq(|gs|, i requires 0 <= i < |gs| => JoinSpace(gs[i]))
  }

  /** What `chunkText(text, maxBytes)` returns. */
  function Chunks(text: string, maxBytes: nat): seq<string>
  {
    JoinAll(Groups(text, maxBytes))
  }

  /** The chunk bound: the words' summed byte length is within `maxBytes`,
      unless the chunk is a single word that alone exceeds it. */
  predicate Fits(g: seq<string>, maxBytes: nat)
  {
    SumBytes(g) <= maxBytes || (|g| == 1 && ByteLen(g[0]) > maxBytes)
  }

  lemma SumBytesWord(g: seq<string>, w: string)
    ensures SumBytes(g + Word(w)) == SumBytes(g) + ByteLen(w)
  {
    if w == "" {
      assert g + Word(w) == g;
    } else {
      assert (g + [w])[..|g|] == g;
    }
  }

  lemma FlattenSnoc(gs: seq<seq<string>>, g: seq<string>)
    ensures Flatten(gs + [g]) == Flatten(gs) + g
  {
    assert (gs + [g])[..|gs|] == gs;
  }

  lemma NonEmptySnoc(ws: seq<string>, k: nat)
    requires 0 < k <= |ws|
    ensures NonEmpty(ws[..k]) == NonEmpty(ws[..k - 1]) + Word(ws[k - 1])
  {
    assert ws[..k][..k - 1] == ws[..k - 1];
  }

  /** The running and flushed word lists together are the non-empty pieces
      read so far. */
  lemma {:induction false} FoldWords(ws: seq<string>, k: nat, maxBytes: nat)
    requires k <= |ws|
    ensures var a := Fold(ws, k, maxBytes);
            Flatten(a.done) + a.cur == NonEmpty(ws[..k])
    decreases k
  {
    if k == 0 {
      assert ws[..0] == [];
    } else {
      FoldWords(ws, k - 1, maxBytes);
      NonEmptySnoc(ws, k);
      StepWords(Fold(ws, k - 1, maxBytes), ws[k - 1], maxBytes);
    }
  }

  lemma StepWords(a: Acc, w: string, maxBytes: nat)
    ensures var b := Step(a, w, maxBytes);
            Flatten(b.done) + b.cur == Flatten(a.done) + a.cur + Word(w)
  {
    if SumBytes(a.cur) + ByteLen(w) > maxBytes {
      FlattenSnoc(a.done, a.cur);
    } else {
      var flat := Flatten(a.done);
      assert flat + (a.cur + Word(w)) == flat + a.cur + Word(w);
    }
  }

  /** A closed running chunk holds no word; after the first piece the state
      is open or has flushed. */
  lemma {:induction false} FoldOpen(ws: seq<string>, k: nat, maxBytes: nat)
    requires k <= |ws|
    ensures var a := Fold(ws, k, maxBytes);
            (!a.open ==> a.cur == []) && (k > 0 ==> a.open || |a.done| > 0)
    decreases k
  {
    if k > 0 {
      FoldOpen(ws, k - 1, maxBytes);
    }
  }

  /** Every word list respects the chunk bound and holds only non-empty,
      whitespace-free words. */
  lemma {:induction false} FoldFits(ws: seq<string>, k: nat, maxBytes: nat)
    requires k <= |ws| && forall j :: 0 <= j < |ws| ==> SpaceFree(ws[j])
    ensures var a := Fold(ws, k, maxBytes);
            (forall i :: 0 <= i < |a.done| ==> Fits(a.done[i], maxBytes) && Words(a.done[i]))
            && Fits(a.cur, maxBytes) && Words(a.cur)
    decreases k
  {
    if k > 0 {
      FoldFits(ws, k - 1, maxBytes);
      var a := Fold(ws, k - 1, maxBytes);
      var w := ws[k - 1];
      assert SpaceFree(w);
      StepFits(a, w, maxBytes);
    }
  }

  lemma StepFits(a: Acc, w: string, maxBytes: nat)
    requires Fits(a.cur, maxBytes) && Words(a.cur) && SpaceFree(w)
    requires forall i :: 0 <= i < |a.done| ==> Fits(a.done[i], maxBytes) && Words(a.done[i])
    ensures var b := Step(a, w, maxBytes);
            (forall i :: 0 <= i < |b.done| ==> Fits(b.done[i], maxBytes) && Words(b.done[i]))
            && Fits(b.cur, maxBytes) && Words(b.cur)
  {
    if SumBytes(a.cur) + ByteLen(w) > maxBytes {
      WordFits(w, maxBytes);
      var done := a.done + [a.cur];
      forall i | 0 <= i < |done|
        ensures Fits(done[i], maxBytes) && Words(done[i])
      {
        if i == |a.done| {
          assert done[i] == a.cur;
        } else {
          assert done[i] == a.done[i];
        }
      }
    } else {
      SumBytesWord(a.cur, w);
      WordsAppend(a.cur, w);
    }
  }

  /** A piece alone always fits: within the bound, or one oversize word. */
  lemma WordFits(w: string, maxBytes: nat)
    requires SpaceFree(w)
    ensures Fits(Word(w), maxBytes) && Words(Word(w))
  {
    if w != "" {
      assert [w][..0] == [];
      assert SumBytes([w]) == ByteLen(w);
    }
  }

  lemma WordsAppend(g: seq<string>, w: string)
    requires Words(g) && SpaceFree(w)
    ensures Words(g + Word(w))
  {
    if w != "" {
      assert forall k :: 0 <= k < |g| ==> (g + [w])[k] == g[k];
      assert (g + [w])[|g|] == w;
    } else {
      assert g + Word(w) == g;
    }
  }

  /** Only the first flushed list can be empty, and an empty running list
      after a flush happens only once the last piece has been read. */
  lemma {:induction false} FoldNonEmpty(ws: seq<string>, k: nat, maxBytes: nat)
    requires k <= |ws| && SplitShaped(ws)
    ensures var a := Fold(ws, k, maxBytes);
            (forall i :: 0 < i < |a.done| ==> a.done[i] != [])
            && (|a.done| > 0 && a.cur == [] ==> k == |ws| && !a.open)
    decreases k
  {
    if k > 0 {
      FoldNonEmpty(ws, k - 1, maxBytes);
      StepNonEmpty(Fold(ws, k - 1, maxBytes), ws[k - 1], maxBytes, k - 1 == 0, k == |ws|);
    }
  }

  /** One step of `FoldNonEmpty`: `first` and `last` say whether the piece
      read is the first or the last one of the split. */
  lemma StepNonEmpty(a: Acc, w: string, maxBytes: nat, first: bool, last: bool)
    requires forall i :: 0 < i < |a.done| ==> a.done[i] != []
    requires |a.done| > 0 ==> a.cur != []
    requires w == "" ==> first || last
    requires first ==> a == Acc([], [], false)
    ensures var b := Step(a, w, maxBytes);
            (forall i :: 0 < i < |b.done| ==> b.done[i] != [])
            && (|b.done| > 0 && b.cur == [] ==> last && !b.open)
  {
    if SumBytes(a.cur) + ByteLen(w) > maxBytes {
      var done := a.done + [a.cur];
      if w == "" {
        assert a.cur != [];
      }
      forall i | 0 < i < |done|
        ensures done[i] != []
      {
        if i < |a.done| {
          assert done[i] == a.done[i];
        }
      }
    }
  }

  /** Greediness: every flushed list was closed because the first word of
      the next list would have passed the bound. */
  ghost predicate Greedy(a: Acc, maxBytes: nat)
  {
    (forall j :: 0 < j < |a.done| && a.done[j] != [] ==>
       SumBytes(a.done[j - 1]) + ByteLen(a.done[j][0]) > maxBytes)
    && (|a.done| > 0 && a.cur != [] ==> SumBytes(a.done[|a.done| - 1]) + ByteLen(a.cur[0]) > maxBytes)
  }

  lemma {:induction false} FoldGreedy(ws: seq<string>, k: nat, maxBytes: nat)
    requires k <= |ws| && SplitShaped(ws)
    ensures Greedy(Fold(ws, k, maxBytes), maxBytes)
    decreases k
  {
    if k > 0 {
      FoldGreedy(ws, k - 1, maxBytes);
      FoldNonEmpty(ws, k - 1, maxBytes);
      StepGreedy(Fold(ws, k - 1, maxBytes), ws[k - 1], maxBytes);
    }
  }

  lemma StepGreedy(a: Acc, w: string, maxBytes: nat)
    requires Greedy(a, maxBytes)
    requires |a.done| > 0 ==> a.cur != []
    ensures Greedy(Step(a, w, maxBytes), maxBytes)
  {
    if SumBytes(a.cur) + ByteLen(w) > maxBytes {
      var done := a.done + [a.cur];
      forall j | 0 < j < |done| && done[j] != []
        ensures SumBytes(done[j - 1]) + ByteLen(done[j][0]) > maxBytes
      {
        assert done[j - 1] == a.done[j - 1];
        if j < |a.done| {
          assert done[j] == a.done[j];
        }
      }
    } else if a.cur != [] {
      assert (a.cur + Word(w))[0] == a.cur[0];
    }
  }

  /** The first word list is empty only when the first word was flushed on
      its own size; otherwise its first word fits. `ne` are the words read. */
  ghost predicate FirstFits(a: Acc, ne: seq<string>, maxBytes: nat)
  {
    (|a.done| > 0 && a.done[0] == [] ==> |ne| > 0 && ByteLen(ne[0]) > maxBytes)
    && (|a.done| > 0 && a.done[0] != [] ==> ByteLen(a.done[0][0]) <= maxBytes)
    && (|a.done| == 0 && a.cur != [] ==> ByteLen(a.cur[0]) <= maxBytes)
  }

  lemma {:induction false} FoldFirst(ws: seq<string>, k: nat, maxBytes: nat)
    requires k <= |ws|
    ensures FirstFits(Fold(ws, k, maxBytes), NonEmpty(ws[..k]), maxBytes)
    decreases k
  {
    if k > 0 {
      var a, w, ne := Fold(ws, k - 1, maxBytes), ws[k - 1], NonEmpty(ws[..k - 1]);
      FoldFirst(ws, k - 1, maxBytes);
      FoldWords(ws, k - 1, maxBytes);
      assert ws[..k - 1][..k - 1] == ws[..k - 1];
      StepFirst(a, w, maxBytes, ne);
      assert Fold(ws, k, maxBytes) == Step(a, w, maxBytes);
      NonEmptySnoc(ws, k);
      assert NonEmpty(ws[..k]) == ne + Word(w);
    }
  }

  lemma StepFirst(a: Acc, w: string, maxBytes: nat, ne: seq<string>)
    requires FirstFits(a, ne, maxBytes) && Flatten(a.done) + a.cur == ne
    ensures FirstFits(Step(a, w, maxBytes), ne + Word(w), maxBytes)
  {
    var ne' := ne + Word(w);
    SumBytesWord(a.cur, w);
    if SumBytes(a.cur) + ByteLen(w) > maxBytes {
      var done := a.done + [a.cur];
      assert done[0] == (if |a.done| > 0 then a.done[0] else a.cur);
      if |a.done| > 0 {
        assert ne'[..|ne|] == ne;
      } else if a.cur == [] {
        assert ne == [];
        assert w != "" && ne' == [w];
      }
    } else if |a.done| > 0 {
      assert ne'[..|ne|] == ne;
    } else if a.cur != [] {
      assert (a.cur + Word(w))[0] == a.cur[0];
    } else {
      assert a.cur + Word(w) == Word(w);
      assert SumBytes([]) == 0;
    }
  }

  /** The word lists of non-empty text are the flushed lists, then the
      running one when it is open; a closed running list is empty. */
  lemma GroupsOfFold(text: string, maxBytes: nat)
    requires text != ""
    ensures var ws := Split(text);
            var a := Fold(ws, |ws|, maxBytes);
            Groups(text, maxBytes) == (if a.open then a.done + [a.cur] else a.done)
            && (!a.open ==> a.cur == []) && (a.open || |a.done| > 0)
  {
    var ws := Split(text);
    FoldOpen(ws, |ws|, maxBytes);
  }

  // -----------------------------------------------------------------------
  // Properties of the chunks

  /** No word is split or lost and the order is kept: the chunks' words,
      concatenated, are exactly the non-empty pieces of `text.split(/\s+/)`,
      and every chunk is its words joined by single spaces. */
  lemma ChunkWordsPreserved(text: string, maxBytes: nat)
    ensures Flatten(Groups(text, maxBytes)) == NonEmpty(Split(text))
    ensures |Chunks(text, maxBytes)| == |Groups(text, maxBytes)|
    ensures forall i :: 0 <= i < |Groups(text, maxBytes)| ==>
              Chunks(text, maxBytes)[i] == JoinSpace(Groups(text, maxBytes)[i])
  {
    if text == "" {
      assert Split(text) == [""];
    } else {
      var ws := Split(text);
      var a := Fold(ws, |ws|, maxBytes);
      GroupsOfFold(text, maxBytes);
      FoldWords(ws, |ws|, maxBytes);
      assert ws[..|ws|] == ws;
      if a.open {
        FlattenSnoc(a.done, a.cur);
      }
    }
  }

  /** The chunk bound: every chunk's words sum to at most `maxBytes` bytes,
      unless the chunk is one word whose own size exceeds `maxBytes`. Counting
      the separating spaces, a chunk of `n` words is `n - 1` bytes longer.
      Every word in a chunk is non-empty and free of whitespace. */
  lemma ChunkBound(text: string, maxBytes: nat)
    ensures forall i :: 0 <= i < |Groups(text, maxBytes)| ==>
              Fits(Groups(text, maxBytes)[i], maxBytes) && Words(Groups(text, maxBytes)[i])
    ensures forall i :: 0 <= i < |Groups(text, maxBytes)| && Groups(text, maxBytes)[i] != [] ==>
              ByteLen(Chunks(text, maxBytes)[i])
                == SumBytes(Groups(text, maxBytes)[i]) + |Groups(text, maxBytes)[i]| - 1
  {
    var g := Groups(text, maxBytes);
    if text != "" {
      var ws := Split(text);
      SplitShape(text);
      GroupsOfFold(text, maxBytes);
      FoldFits(ws, |ws|, maxBytes);
    }
    forall i | 0 <= i < |g| && g[i] != []
      ensures ByteLen(Chunks(text, maxBytes)[i]) == SumBytes(g[i]) + |g[i]| - 1
    {
      JoinSpaceByteLen(g[i]);
    }
  }

  /** Empty text gives no chunk; any other text gives at least one. */
  lemma ChunkCount(text: string, maxBytes: nat)
    ensures text == "" <==> Chunks(text, maxBytes) == []
  {
    if text != "" {
      GroupsOfFold(text, maxBytes);
    }
  }

  /** Only the first chunk can be empty. */
  lemma OnlyFirstChunkEmpty(text: string, maxBytes: nat)
    ensures forall i :: 0 < i < |Chunks(text, maxBytes)| ==> Chunks(text, maxBytes)[i] != ""
  {
    if text != "" {
      var ws := Split(text);
      SplitShape(text);
      FoldNonEmpty(ws, |ws|, maxBytes);
      FoldFits(ws, |ws|, maxBytes);
      var a := Fold(ws, |ws|, maxBytes);
      var g := Groups(text, maxBytes);
      forall i | 0 < i < |g|
        ensures JoinSpace(g[i]) != ""
      {
        assert g[i] != [] && Words(g[i]);
        JoinSpaceUnpadded(g[i]);
      }
    }
  }

  /** The first chunk is empty exactly when the text has no word at all or
      its first word alone exceeds `maxBytes`: the loop starts from
      `currentChunk = ""` and flushes it before such a word. */
  lemma FirstChunkEmpty(text: string, maxBytes: nat)
    requires text != ""
    ensures |Chunks(text, maxBytes)| > 0
    ensures Chunks(text, maxBytes)[0] == "" <==>
              NonEmpty(Split(text)) == [] || ByteLen(NonEmpty(Split(text))[0]) > maxBytes
  {
    var ws := Split(text);
    SplitShape(text);
    FoldWords(ws, |ws|, maxBytes);
    FoldOpen(ws, |ws|, maxBytes);
    FoldFits(ws, |ws|, maxBytes);
    FoldFirst(ws, |ws|, maxBytes);
    assert ws[..|ws|] == ws;
    var a := Fold(ws, |ws|, maxBytes);
    var g := Groups(text, maxBytes);
    assert |g| > 0;
    assert Flatten(g) == NonEmpty(ws) by {
      if a.open {
        FlattenSnoc(a.done, a.cur);
      }
    }
    assert Words(g[0]);
    JoinSpaceUnpadded(g[0]);
    if g[0] != [] {
      FlattenHead(g);
    } else if |a.done| == 0 {
      assert g == [a.cur];
      assert Flatten(g) == Flatten([]) + a.cur;
    }
  }

  lemma {:induction false} FlattenHead(gs: seq<seq<string>>)
    requires |gs| > 0 && gs[0] != []
    ensures |Flatten(gs)| > 0 && Flatten(gs)[0] == gs[0][0]
    decreases |gs|
  {
    if |gs| > 1 {
      FlattenHead(gs[..|gs| - 1]);
    } else {
      assert Flatten(gs) == Flatten([]) + gs[0];
    }
  }

  /** The chunking is greedy: each chunk after the first starts with a word
      that would have passed `maxBytes` had it joined the chunk before. */
  lemma ChunkGreedy(text: string, maxBytes: nat)
    ensures var g := Groups(text, maxBytes);
            forall j :: 0 < j < |g| ==> g[j] != [] && SumBytes(g[j - 1]) + ByteLen(g[j][0]) > maxBytes
  {
    var g := Groups(text, maxBytes);
    if text != "" {
      var ws := Split(text);
      var a := Fold(ws, |ws|, maxBytes);
      SplitShape(text);
      GroupsOfFold(text, maxBytes);
      FoldGreedy(ws, |ws|, maxBytes);
      FoldNonEmpty(ws, |ws|, maxBytes);
      forall j | 0 < j < |g|
        ensures g[j] != [] && SumBytes(g[j - 1]) + ByteLen(g[j][0]) > maxBytes
      {
        assert g[j - 1] == a.done[j - 1];
        if j < |a.done| {
          assert g[j] == a.done[j];
        } else {
          assert g[j] == a.cur;
        }
      }
    }
  }

  /** No word is cut, on the chunk strings themselves: every chunk that
      holds a word splits back into exactly its group of words. */
  lemma ChunkSplit(text: string, maxBytes: nat)
    ensures forall i :: 0 <= i < |Groups(text, maxBytes)| && Groups(text, maxBytes)[i] != [] ==>
              Split(Chunks(text, maxBytes)[i]) == Groups(text, maxBytes)[i]
  {
    var g := Groups(text, maxBytes);
    ChunkWordsPreserved(text, maxBytes);
    ChunkBound(text, maxBytes);
    forall i | 0 <= i < |g| && g[i] != []
      ensures Split(Chunks(text, maxBytes)[i]) == g[i]
    {
      SplitJoin(g[i]);
    }
  }

  /** Chunking drops whitespace and nothing else: the chunks' words,
      concatenated, are the non-whitespace characters of the text in order,
      and so are the non-whitespace characters of the chunks themselves. */
  lemma ChunkContent(text: string, maxBytes: nat)
    ensures Concat(Flatten(Groups(text, maxBytes))) == NonSpace(text)
    ensures NonSpace(Concat(Chunks(text, maxBytes))) == NonSpace(text)
  {
    ChunkWordsPreserved(text, maxBytes);
    ConcatNonEmpty(Split(text));
    SplitContent(text);
    JoinAllContent(Groups(text, maxBytes));
    NonSpaceTwice(text);
  }

  lemma {:induction false} JoinAllContent(gs: seq<seq<string>>)
    ensures NonSpace(Concat(JoinAll(gs))) == NonSpace(Concat(Flatten(gs)))
    decreases |gs|
  {
    if gs == [] {
      assert JoinAll(gs) == [];
    } else {
      var init, last := gs[..|gs| - 1], gs[|gs| - 1];
      JoinAllContent(init);
      assert gs == init + [last];
      JoinAllSnoc(init, last);
      FlattenSnoc(init, last);
      ConcatSnoc(JoinAll(init), JoinSpace(last));
      ConcatAppend(Flatten(init), last);
      NonSpaceJoin(last);
      NonSpaceAppend(Concat(JoinAll(init)), JoinSpace(last));
      NonSpaceAppend(Concat(Flatten(init)), Concat(last));
    }
  }

  /** Text made only of whitespace is not empty, so it yields one empty chunk
      rather than no chunk. */
  lemma WhitespaceOnlyText(text: string, maxBytes: nat)
    requires text != "" && forall i :: 0 <= i < |text| ==> IsSpace(text[i])
    ensures Chunks(text, maxBytes) == [""]
  {
    WhitespaceSplit(text);
    var ws := Split(text);
    assert Fold(ws, 1, maxBytes) == Acc([], [], true);
    assert Fold(ws, 2, maxBytes) == Acc([], [], true);
    assert Groups(text, maxBytes) == [[]];
  }

  /** The bound counts word bytes only: two words whose sizes add up to at
      most `maxBytes` stay in one chunk, which is one byte longer than their
      sizes added (with the sum at `maxBytes`, the chunk exceeds it). */
  lemma SpaceNotCounted(a: string, b: string, maxBytes: nat)
    requires Words([a, b]) && ByteLen(a) + ByteLen(b) <= maxBytes
    ensures Chunks(a + " " + b, maxBytes) == [a + " " + b]
    ensures ByteLen(a + " " + b) == ByteLen(a) + ByteLen(b) + 1
  {
    assert [a, b][0] == a && [a, b][1] == b;
    assert SpaceFree(a) && SpaceFree(b);
    SplitTwoWords(a, b);
    var ws := [a, b];
    assert SumBytes([a]) == ByteLen(a) by {
      assert [a][..0] == [];
    }
    assert Fold(ws, 1, maxBytes) == Acc([], [a], true);
    assert Fold(ws, 2, maxBytes) == Acc([], [a, b], true);
    assert Groups(a + " " + b, maxBytes) == [[a, b]];
    assert JoinSpace([a, b]) == a + " " + b by {
      assert [a, b][..1] == [a];
    }
    ByteLenAppend(a, " ");
    ByteLenAppend(a + " ", b);
    assert ByteLen(" ") == 1;
  }

  // -----------------------------------------------------------------------
  // The loop

  lemma JoinAllSnoc(gs: seq<seq<string>>, g: seq<string>)
    ensures JoinAll(gs + [g]) == JoinAll(gs) + [JoinSpace(g)]
  {
  }

  /** Appending `" " + w` to a running chunk string that is its words padded
      with spaces keeps it of that shape; trailing padding appears only when an
      empty piece follows a word. */
  lemma AppendWord(lead: nat, cur: seq<string>, w: string) returns (lead': nat, trail': nat)
    ensures Spaces(lead) + JoinSpace(cur) + Spaces(0) + " " + w
              == Spaces(lead') + JoinSpace(cur + Word(w)) + Spaces(trail')
    ensures trail' > 0 ==> cur != [] && w == ""
  {
    var c := Spaces(lead) + JoinSpace(cur) + Spaces(0);
    if cur == [] {
      assert c + " " == Spaces(lead + 1);
      lead', trail' := lead + 1, 0;
      if w == "" {
        assert c + " " + w == Spaces(lead') + JoinSpace(cur + Word(w)) + Spaces(trail');
      } else {
        assert cur + Word(w) == [w];
        assert c + " " + w == Spaces(lead') + JoinSpace(cur + Word(w)) + Spaces(trail');
      }
    } else if w == "" {
      lead', trail' := lead, 1;
      assert cur + Word(w) == cur;
      assert c + " " + w == Spaces(lead') + JoinSpace(cur + Word(w)) + Spaces(trail');
    } else {
      lead', trail' := lead, 0;
      assert (cur + [w])[..|cur|] == cur;
      assert JoinSpace(cur + Word(w)) == JoinSpace(cur) + " " + w;
      assert c + " " + w == Spaces(lead') + JoinSpace(cur + Word(w)) + Spaces(trail');
    }
  }

  /** Trimming the running chunk string gives its words joined by spaces. */
  lemma TrimChunk(lead: nat, cur: seq<string>, trail: nat)
    requires Words(cur)
    ensures Trim(Spaces(lead) + JoinSpace(cur) + Spaces(trail)) == JoinSpace(cur)
  {
    JoinSpaceUnpadded(cur);
    TrimPadded(lead, JoinSpace(cur), trail);
  }

  /** The string side of a flush: the pushed string is the running words
      joined. */
  lemma FlushStep(acc: Acc, lead: nat, trail: nat)
    requires Words(acc.cur)
    ensures JoinAll(acc.done) + [Trim(Spaces(lead) + JoinSpace(acc.cur) + Spaces(trail))]
              == JoinAll(acc.done + [acc.cur])
  {
    TrimChunk(lead, acc.cur, trail);
    JoinAllSnoc(acc.done, acc.cur);
  }

  /** After a flush the running string is the word itself. */
  lemma WordString(word: string)
    ensures word == Spaces(0) + JoinSpace(Word(word)) + Spaces(0)
    ensures SumBytes(Word(word)) == ByteLen(word)
  {
    if word != "" {
      assert [word][..0] == [];
    }
  }

  /** The string side of appending `" " + word` to the running chunk. */
  lemma AppendStep(acc: Acc, word: string, lead: nat) returns (lead': nat, trail': nat)
    requires Words(acc.cur) && SpaceFree(word)
    ensures Spaces(lead) + JoinSpace(acc.cur) + Spaces(0) + " " + word
              == Spaces(lead') + JoinSpace(acc.cur + Word(word)) + Spaces(trail')
    ensures trail' > 0 ==> acc.cur != [] && word == ""
    ensures SumBytes(acc.cur + Word(word)) == SumBytes(acc.cur) + ByteLen(word)
    ensures Words(acc.cur + Word(word))
  {
    lead', trail' := AppendWord(lead, acc.cur, word);
    SumBytesWord(acc.cur, word);
  }

  /** The string-level loop state: the emitted chunks, `currentChunk` and
      `currentSize`. */
  datatype Run = Run(chunks: seq<string>, current: string, size: nat)

  /** One iteration of the loop on strings. */
  function Push(r: Run, word: string, maxBytes: nat): Run
  {
    if r.size + ByteLen(word) > maxBytes then Run(r.chunks + [Trim(r.current)], word, ByteLen(word))
    else Run(r.chunks, r.current + " " + word, r.size + ByteLen(word))
  }

  /** The string-level state after the first `k` pieces. */
  function Scan(words: seq<string>, k: nat, maxBytes: nat): Run
    requires k <= |words|
    decreases k
  {
    if k == 0 then Run([], "", 0) else Push(Scan(words, k - 1, maxBytes), words[k - 1], maxBytes)
  }

  /** The final `if (currentChunk) chunks.push(currentChunk.trim())`. */
  function Finish(r: Run): seq<string>
  {
    if r.current != "" then r.chunks + [Trim(r.current)] else r.chunks
  }

  /** How the string-level state `r` tracks the word-level state `acc`: the
      emitted strings are the flushed word lists joined, and the running
      string is the running words joined and padded with `lead` and `trail`
      spaces (the spaces that `trim()` will remove), with the running size
      their summed byte length. Trailing padding only appears after the last
      piece. */
  ghost predicate Tracks(acc: Acc, r: Run, lead: nat, trail: nat, last: bool)
  {
    Words(acc.cur)
    && r.chunks == JoinAll(acc.done)
    && r.size == SumBytes(acc.cur)
    && (r.current != "") == acc.open
    && r.current == Spaces(lead) + JoinSpace(acc.cur) + Spaces(trail)
    && (trail > 0 ==> last)
  }

  /** The flush branch keeps the tracking. */
  lemma FlushKeeps(acc: Acc, r: Run, word: string, maxBytes: nat, lead: nat, last: bool)
    requires SpaceFree(word) && Tracks(acc, r, lead, 0, false)
    requires r.size + ByteLen(word) > maxBytes
    ensures Tracks(Step(acc, word, maxBytes), Push(r, word, maxBytes), 0, 0, last)
  {
    var b := Step(acc, word, maxBytes);
    assert b == Acc(acc.done + [acc.cur], Word(word), word != "");
    assert Push(r, word, maxBytes) == Run(r.chunks + [Trim(r.current)], word, ByteLen(word));
    FlushStep(acc, lead, 0);
    WordString(word);
    WordFits(word, maxBytes);
  }

  /** The append branch keeps the tracking, with the new padding; an empty
      piece after some words only comes last. */
  lemma AppendKeeps(acc: Acc, r: Run, word: string, maxBytes: nat, lead: nat, last: bool)
    returns (lead': nat, trail': nat)
    requires SpaceFree(word) && Tracks(acc, r, lead, 0, false)
    requires word == "" && acc.cur != [] ==> last
    requires r.size + ByteLen(word) <= maxBytes
    ensures Tracks(Step(acc, word, maxBytes), Push(r, word, maxBytes), lead', trail', last)
  {
    AppendUnfolds(acc, r, word, maxBytes);
    lead', trail' := AppendTracks(acc, r, word, lead, last);
  }

  /** Within the bound, both loops take their appending branch. */
  lemma AppendUnfolds(acc: Acc, r: Run, word: string, maxBytes: nat)
    requires r.size == SumBytes(acc.cur) && r.size + ByteLen(word) <= maxBytes
    ensures Step(acc, word, maxBytes) == Acc(acc.done, acc.cur + Word(word), true)
    ensures Push(r, word, maxBytes) == Run(r.chunks, r.current + " " + word, r.size + ByteLen(word))
  {
  }

  /** Appending a piece on both sides keeps the relation. */
  lemma AppendTracks(acc: Acc, r: Run, word: string, lead: nat, last: bool)
    returns (lead': nat, trail': nat)
    requires SpaceFree(word) && Tracks(acc, r, lead, 0, false)
    requires word == "" && acc.cur != [] ==> last
    ensures Tracks(Acc(acc.done, acc.cur + Word(word), true),
                   Run(r.chunks, r.current + " " + word, r.size + ByteLen(word)), lead', trail', last)
  {
    lead', trail' := AppendStep(acc, word, lead);
  }

  /** The string-level run tracks the word-level fold after every prefix of
      the split pieces. */
  lemma {:induction false} ScanTracks(words: seq<string>, k: nat, maxBytes: nat) returns (lead: nat, trail: nat)
    requires k <= |words| && SplitShaped(words)
    ensures Tracks(Fold(words, k, maxBytes), Scan(words, k, maxBytes), lead, trail, k == |words|)
    decreases k
  {
    if k == 0 {
      assert Spaces(0) + JoinSpace([]) + Spaces(0) == "";
      lead, trail := 0, 0;
    } else {
      var l, t := ScanTracks(words, k - 1, maxBytes);
      var a := Fold(words, k - 1, maxBytes);
      var r := Scan(words, k - 1, maxBytes);
      var w := words[k - 1];
      assert SpaceFree(w);
      assert Fold(words, k, maxBytes) == Step(a, w, maxBytes);
      assert Scan(words, k, maxBytes) == Push(r, w, maxBytes);
      if r.size + ByteLen(w) > maxBytes {
        FlushKeeps(a, r, w, maxBytes, l, k == |words|);
        lead, trail := 0, 0;
      } else {
        assert w == "" && a.cur != [] ==> k == |words|;
        lead, trail := AppendKeeps(a, r, w, maxBytes, l, k == |words|);
      }
    }
  }

  /** Finishing the run over all pieces of `text` gives its chunks. */
  lemma ScanChunks(text: string, maxBytes: nat)
    ensures text != "" ==> Finish(Scan(Split(text), |Split(text)|, maxBytes)) == Chunks(text, maxBytes)
  {
    if text != "" {
      var words := Split(text);
      SplitShape(text);
      var acc := Fold(words, |words|, maxBytes);
      var r := Scan(words, |words|, maxBytes);
      var lead, trail := ScanTracks(words, |words|, maxBytes);
      if r.current != "" {
        TrimChunk(lead, acc.cur, trail);
        JoinAllSnoc(acc.done, acc.cur);
      }
    }
  }

  /** `chunkText(text, maxBytes)`: iterate the words of `text.split(/\s+/)`
      keeping the running chunk and its UTF-8 size; flush (trimmed) when the
      next word would push the size past `maxBytes`. */
  method ChunkText(text: string, maxBytes: nat) returns (chunks: seq<string>)
    ensures chunks == Chunks(text, maxBytes)
  {
    if text == "" {
      return [];
    }
    var words := Split(text);
    chunks := [];
    var currentChunk := "";
    var currentSize: nat := 0;
    for i := 0 to |words|
      invariant Run(chunks, currentChunk, currentSize) == Scan(words, i, maxBytes)
    {
      var word := words[i];
      var wordSize := ByteLen(word);
      if currentSize + wordSize > maxBytes {
        chunks := chunks + [Trim(currentChunk)];
        currentChunk := word;
        currentSize := wordSize;
      } else {
        currentChunk := currentChunk + " " + word;
        currentSize := currentSize + wordSize;
      }
    }
    ScanChunks(text, maxBytes);
    if currentChunk != "" {
      chunks := chunks + [Trim(currentChunk)];
    }
  }
}
